/**
 The kernel heap: a bump region at the top of one pool, below it nodes that are allocated or free.
 Offsets are from the start of the pool; `base` is its address.
 */
module Heap {
  import opened Bits
  import opened Options
  import opened HeapBin

  const HEADER: nat := 16
  const MIN_NODE_SIZE: nat := 16

  /** The largest request for which no size computed in malloc wraps around. */
  const MAX_REQUEST: nat := 0xFFFF_FFD0

  /** The size asked for, rounded up without a limit. */
  function RoundUp(req: nat): nat {
    req + (16 - req % 16) % 16
  }

  /** get_aligned_size(req, 16) in 32 bits; with an alignment of 1 it is the identity. */
  function AlignedSize(req: nat): nat {
    RoundUp(req) % U32
  }

  /** Rounding up, by the number of units and what is missing in the last one. */
  lemma RoundUpIs(req: nat, q: nat, missing: nat)
    requires req + missing == 16 * q && missing < 16
    ensures RoundUp(req) == 16 * q
  {
    if missing == 0 { DivModUnique(req, q, 0, 16); } else { DivModUnique(req, q - 1, 16 - missing, 16); }
  }

  /** The size computed, in units of 16. */
  lemma AlignedIs(req: nat) returns (q: nat)
    requires 0 < req < U32
    ensures 16 * q - 16 < req <= 16 * q && RoundUp(req) == 16 * q
    ensures AlignedSize(req) == if q == 0x1000_0000 then 0 else 16 * q
  {
    q := (req + 15) / 16;
    RoundUpIs(req, q, 16 * q - req);
    if q == 0x1000_0000 { DivModUnique(16 * q, 1, 0, U32); } else { DivModUnique(16 * q, 0, 16 * q, U32); }
  }

  /** The sizes malloc computes are right, and none wraps, exactly up to MAX_REQUEST. */
  lemma SizesExact(req: nat)
    requires 0 < req < U32
    ensures AlignedSize(req) >= req && AlignedSize(req) + HEADER + MIN_NODE_SIZE < U32 <==> req <= MAX_REQUEST
    ensures req <= MAX_REQUEST ==> AlignedSize(req) % 16 == 0 && AlignedSize(req) < req + 16
  {
    var q := AlignedIs(req);
    MultipleMod(q, 16);
  }

  /** The sizes of the last requests. */
  lemma WrappedSizes(req: nat)
    requires 0 < req < U32
    ensures AlignedSize(req) % 16 == 0
    ensures 0xFFFF_FFD0 < req <= 0xFFFF_FFE0 ==> AlignedSize(req) == 0xFFFF_FFE0
    ensures 0xFFFF_FFE0 < req <= 0xFFFF_FFF0 ==> AlignedSize(req) == 0xFFFF_FFF0
    ensures 0xFFFF_FFF0 < req ==> AlignedSize(req) == 0 && RoundUp(req) == U32
    ensures req <= 0xFFFF_FFF0 ==> AlignedSize(req) == RoundUp(req) && (req <= MAX_REQUEST ==> AlignedSize(req) <= MAX_REQUEST)
  {
    var q := AlignedIs(req);
    MultipleMod(q, 16);
  }

  /** ceil_to_2power on 32 bits: 0, and anything above 2^31, give 0. */
  function CeilPow2(v: nat): nat {
    if v == 0 || v > 0x8000_0000 then 0 else Pow2(ReqOrder(v))
  }

  /** The alignment used is the least power of two that is not below the one asked for, if it fits 32 bits, else 0. */
  lemma CeilExact(v: nat)
    requires v < U32
    ensures 0 < v <= 0x8000_0000 ==> exists k: nat :: CeilPow2(v) == Pow2(k) && v <= Pow2(k) < 2 * v
    ensures v == 0 || v > 0x8000_0000 ==> CeilPow2(v) == 0
  {
    if 0 < v <= 0x8000_0000 { ReqOrderIsTight(v); }
  }

  /** The padding that brings address x up to a multiple of a. */
  function Padding(x: nat, a: nat): nat
    requires a > 0
  {
    (a - x % a) % a
  }

  lemma PaddingAligns(x: nat, a: nat)
    requires a > 0
    ensures (x + Padding(x, a)) % a == 0 && Padding(x, a) < a
  {
    var q := x / a;
    assert x == q * a + x % a;
    if x % a == 0 {
      MultipleMod(q, a);
    } else {
      assert x + Padding(x, a) == q * a + a == (q + 1) * a;
      MultipleMod(q + 1, a);
    }
  }

  lemma Difference16(x: nat, m: nat)
    requires x % 16 == 0 && m % 16 == 0 && m <= x
    ensures (x - m) % 16 == 0
  {
  }

  lemma RemainderBy16(x: nat, a: nat, q: nat, r: nat)
    requires x == a * q + r && x % 16 == 0 && a % 16 == 0
    ensures r % 16 == 0
  {
    ScaledMultiple(a, q, 16);
    Difference16(x, a * q);
  }

  /** Between multiples of 16 the padding is one. */
  lemma PaddingBy16(x: nat, v: nat)
    requires x % 16 == 0 && CeilPow2(v) > 16
    ensures Padding(x, CeilPow2(v)) % 16 == 0
  {
    CeilBy16(v);
    PaddingOf(x, CeilPow2(v));
  }

  lemma PaddingOf(x: nat, a: nat)
    requires x % 16 == 0 && a % 16 == 0 && a > 0
    ensures Padding(x, a) % 16 == 0
  {
    var q, r := Euclid(x, a);
    RemainderBy16(x, a, q, r);
    PaddingCases(x, a);
    Difference16(a, r);
  }

  lemma Euclid(x: nat, d: nat) returns (q: nat, r: nat)
    requires d > 0
    ensures x == d * q + r && r == x % d && r < d
  {
    q, r := x / d, x % d;
  }

  lemma PaddingFor(x: nat, v: nat, y: nat)
    requires x % 16 == 0 && CeilPow2(v) > 16 && y == x + Padding(x, CeilPow2(v))
    ensures Padding(x, CeilPow2(v)) % 16 == 0 && y % CeilPow2(v) == 0
  {
    PaddingAligns(x, CeilPow2(v));
    PaddingBy16(x, v);
  }

  lemma SumBy16(base: nat, head: nat, x: nat)
    requires base % 16 == 0 && head % 16 == 0 && x == base + head + HEADER
    ensures x % 16 == 0
  {
  }

  lemma PaddingAt(base: nat, head: nat, align: nat, a: nat, padding: nat, y: nat)
    requires base % 16 == 0 && head % 16 == 0 && a == CeilPow2(align) > 16
    requires padding == Padding(base + head + HEADER, a) && y == base + (head + padding + HEADER)
    ensures padding % 16 == 0 && y % a == 0
  {
    var x := base + head + HEADER;
    SumBy16(base, head, x);
    PaddingFor(x, align, y);
  }

  lemma CeilBy16(v: nat)
    requires CeilPow2(v) > 16
    ensures CeilPow2(v) % 16 == 0
  {
    assert Pow2(4) == 16;
    if ReqOrder(v) < 4 { Pow2Mono(ReqOrder(v), 4); }
    Pow2Divides(4, ReqOrder(v));
  }

  lemma PaddingCases(x: nat, a: nat)
    requires a > 0
    ensures Padding(x, a) == if x % a == 0 then 0 else a - x % a
  {
    DivModUnique(a, 1, 0, a);
    if x % a > 0 { DivModUnique(a - x % a, 0, a - x % a, a); }
  }

  // ---------- the tiling of the pool ----------

  function End(nodes: map<nat, Node>, n: nat): nat
    requires n in nodes
  {
    n + HEADER + nodes[n].size
  }

  /** Tile i ends where the next one, or the bump region, starts. */
  predicate TileAt(nodes: map<nat, Node>, tiles: seq<nat>, head: nat, i: nat)
    requires i < |tiles|
  {
    tiles[i] in nodes && End(nodes, tiles[i]) == if i + 1 < |tiles| then tiles[i + 1] else head
  }

  /** The nodes at `tiles` cover the pool from 0 to head, in this order, without gap or overlap. */
  ghost predicate Tiled(nodes: map<nat, Node>, tiles: seq<nat>, head: nat) {
    && (if tiles == [] then head == 0 else tiles[0] == 0)
    && (forall n | n in tiles :: n in nodes && n % 16 == 0 && nodes[n].size % 16 == 0)
    && (forall i: nat {:trigger TileAt(nodes, tiles, head, i)} | i < |tiles| :: TileAt(nodes, tiles, head, i))
  }

  /** Tiles lie one after the other. */
  lemma {:induction false} TilesInOrder(nodes: map<nat, Node>, tiles: seq<nat>, head: nat, i: nat, j: nat)
    requires Tiled(nodes, tiles, head) && i < j <= |tiles|
    ensures tiles[i] in nodes && End(nodes, tiles[i]) <= if j < |tiles| then tiles[j] else head
    decreases j - i
  {
    assert TileAt(nodes, tiles, head, i);
    if i + 1 < j { TilesInOrder(nodes, tiles, head, i + 1, j); }
  }

  lemma TilesUnique(nodes: map<nat, Node>, tiles: seq<nat>, head: nat)
    requires Tiled(nodes, tiles, head)
    ensures Unique(tiles) && forall n | n in tiles :: End(nodes, n) <= head && n < head
  {
    forall i, j | 0 <= i < j < |tiles| ensures tiles[i] != tiles[j] { TilesInOrder(nodes, tiles, head, i, j); }
    forall n | n in tiles ensures End(nodes, n) <= head && n < head {
      var i :| 0 <= i < |tiles| && tiles[i] == n;
      TilesInOrder(nodes, tiles, head, i, |tiles|);
    }
  }

  /** Two different tiles do not overlap. */
  lemma TilesApart(nodes: map<nat, Node>, tiles: seq<nat>, head: nat, a: nat, b: nat)
    requires Tiled(nodes, tiles, head) && a in tiles && b in tiles && a != b
    ensures End(nodes, a) <= b || End(nodes, b) <= a
  {
    var i :| 0 <= i < |tiles| && tiles[i] == a;
    var j :| 0 <= j < |tiles| && tiles[j] == b;
    if i < j { TilesInOrder(nodes, tiles, head, i, j); } else { TilesInOrder(nodes, tiles, head, j, i); }
  }

  /** The tile that ends at head is the last one. */
  lemma LastTile(nodes: map<nat, Node>, tiles: seq<nat>, head: nat, n: nat)
    requires Tiled(nodes, tiles, head) && n in tiles && End(nodes, n) == head
    ensures tiles[|tiles| - 1] == n && n !in tiles[..|tiles| - 1]
  {
    var k := |tiles| - 1;
    assert TileAt(nodes, tiles, head, k);
    TilesUnique(nodes, tiles, head);
    TilesApartOrSame(nodes, tiles, head, n, tiles[k]);
    forall j | 0 <= j < k ensures tiles[j] != n { TilesInOrder(nodes, tiles, head, j, k); }
  }

  lemma TilesApartOrSame(nodes: map<nat, Node>, tiles: seq<nat>, head: nat, a: nat, b: nat)
    requires Tiled(nodes, tiles, head) && a in tiles && b in tiles
    ensures a == b || End(nodes, a) <= b || End(nodes, b) <= a
  {
    if a != b { TilesApart(nodes, tiles, head, a, b); }
  }

  /** Every byte below head lies in a tile. */
  lemma {:induction false} TilesCover(nodes: map<nat, Node>, tiles: seq<nat>, head: nat, x: nat, i: nat) returns (n: nat)
    requires Tiled(nodes, tiles, head) && i < |tiles| && tiles[i] <= x < head
    ensures n in tiles && n in nodes && n <= x < End(nodes, n)
    decreases |tiles| - i
  {
    assert TileAt(nodes, tiles, head, i);
    if x < End(nodes, tiles[i]) { n := tiles[i]; } else { n := TilesCover(nodes, tiles, head, x, i + 1); }
  }

  lemma NextBy16(n: nat, size: nat)
    requires n % 16 == 0 && size % 16 == 0
    ensures (n + HEADER + size) % 16 == 0
  {
    SumMod(n + HEADER, size, 16);
  }

  lemma HeadBy16(nodes: map<nat, Node>, tiles: seq<nat>, head: nat)
    requires Tiled(nodes, tiles, head)
    ensures head % 16 == 0
  {
    if tiles != [] {
      var n := tiles[|tiles| - 1];
      assert TileAt(nodes, tiles, head, |tiles| - 1) && n in tiles;
      NextBy16(n, nodes[n].size);
    }
  }

  /** A node is made at the start of the bump region. */
  lemma TilesExtend(a: map<nat, Node>, b: map<nat, Node>, tiles: seq<nat>, head: nat, size: nat)
    requires Tiled(a, tiles, head) && size % 16 == 0 && head in b && b[head].size == size
    requires forall n | n in tiles :: n in b && b[n].size == a[n].size
    ensures Tiled(b, tiles + [head], head + HEADER + size)
  {
    HeadBy16(a, tiles, head);
    ExtendedTiled(a, b, tiles, head, tiles + [head], head + HEADER + size);
  }

  lemma ExtendedTiled(a: map<nat, Node>, b: map<nat, Node>, tiles: seq<nat>, head: nat, t: seq<nat>, h: nat)
    requires Tiled(a, tiles, head) && head % 16 == 0 && head in b && b[head].size % 16 == 0 && End(b, head) == h
    requires t == tiles + [head] && forall n | n in tiles :: n in b && b[n].size == a[n].size
    ensures Tiled(b, t, h)
  {
    forall n | n in t ensures n in tiles || n == head {}
    forall i: nat | i < |t| ensures TileAt(b, t, h, i) {
      if i < |tiles| {
        assert TileAt(a, tiles, head, i) && t[i] == tiles[i] && tiles[i] in tiles;
        assert i + 1 < |tiles| ==> t[i + 1] == tiles[i + 1];
      }
    }
  }

  /** The last node goes back to the bump region. */
  lemma TilesShrink(nodes: map<nat, Node>, tiles: seq<nat>, head: nat)
    requires Tiled(nodes, tiles, head) && tiles != []
    ensures Tiled(nodes, tiles[..|tiles| - 1], tiles[|tiles| - 1])
  {
    ShrunkTiled(nodes, tiles[..|tiles| - 1], tiles, head, |tiles| - 1);
  }

  lemma ShrunkTiled(nodes: map<nat, Node>, t: seq<nat>, tiles: seq<nat>, head: nat, k: nat)
    requires Tiled(nodes, tiles, head) && k + 1 == |tiles| && t == tiles[..k]
    ensures Tiled(nodes, t, tiles[k])
  {
    forall n | n in t ensures n in tiles {}
    forall i: nat | i < |t| ensures TileAt(nodes, t, tiles[k], i) {
      assert TileAt(nodes, tiles, head, i) && t[i] == tiles[i];
      assert i + 1 < k ==> t[i + 1] == tiles[i + 1];
    }
  }

  /** Tile k after tile i has been cut in two. */
  lemma SplitTile(tiles: seq<nat>, t: seq<nat>, i: nat, cut: nat, k: nat)
    requires i < |tiles| && t == tiles[..i + 1] + [cut] + tiles[i + 1..] && k < |t|
    ensures t[k] == if k <= i then tiles[k] else if k == i + 1 then cut else tiles[k - 1]
  {
  }

  /** A node is cut in two. */
  lemma TilesSplit(a: map<nat, Node>, b: map<nat, Node>, tiles: seq<nat>, head: nat, i: nat, size: nat, cut: nat)
    requires Tiled(a, tiles, head) && i < |tiles| && cut == tiles[i] + HEADER + size
    requires size % 16 == 0 && size + HEADER <= a[tiles[i]].size
    requires cut in b && b[cut].size == a[tiles[i]].size - size - HEADER
    requires forall n | n in tiles :: n in b && b[n].size == if n == tiles[i] then size else a[n].size
    ensures Tiled(b, tiles[..i + 1] + [cut] + tiles[i + 1..], head)
  {
    var t := tiles[..i + 1] + [cut] + tiles[i + 1..];
    TilesUnique(a, tiles, head);
    assert TileAt(a, tiles, head, i) && tiles[i] in tiles;
    SplitTile(tiles, t, i, cut, 0);
    forall n | n in t ensures n in b && n % 16 == 0 && b[n].size % 16 == 0 {
      assert n == cut || n in tiles;
    }
    forall k: nat | k < |t| ensures TileAt(b, t, head, k) { TileSplitAt(a, b, tiles, t, head, i, size, cut, k); }
  }

  lemma TileSplitAt(a: map<nat, Node>, b: map<nat, Node>, tiles: seq<nat>, t: seq<nat>, head: nat, i: nat, size: nat, cut: nat, k: nat)
    requires Tiled(a, tiles, head) && Unique(tiles) && i < |tiles| && cut == tiles[i] + HEADER + size
    requires size + HEADER <= a[tiles[i]].size && cut in b && b[cut].size == a[tiles[i]].size - size - HEADER
    requires forall n | n in tiles :: n in b && b[n].size == if n == tiles[i] then size else a[n].size
    requires t == tiles[..i + 1] + [cut] + tiles[i + 1..] && k < |t|
    ensures TileAt(b, t, head, k)
  {
    var j := if k <= i then k else k - 1;
    SplitTile(tiles, t, i, cut, k);
    if k + 1 < |t| { SplitTile(tiles, t, i, cut, k + 1); }
    assert TileAt(a, tiles, head, j) && tiles[j] in tiles && tiles[i] in tiles;
  }

  /** Changes to links and flags do not move tiles. */
  lemma TilesSame(a: map<nat, Node>, b: map<nat, Node>, tiles: seq<nat>, head: nat)
    requires Tiled(a, tiles, head) && forall n | n in tiles :: n in b && b[n].size == a[n].size
    ensures Tiled(b, tiles, head)
  {
    forall i: nat | i < |tiles| ensures TileAt(b, tiles, head, i) { assert TileAt(a, tiles, head, i) && tiles[i] in tiles; }
  }

  // ---------- the bins ----------

  /** Each tile is in exactly one bin, the one its FREE flag names. */
  ghost predicate Binned(nodes: map<nat, Node>, tiles: seq<nat>, live: seq<nat>, spare: seq<nat>) {
    && Unique(live) && Unique(spare)
    && (forall n :: n in tiles <==> n in live || n in spare)
    && (forall n | n in live :: n in nodes && !nodes[n].free)
    && (forall n | n in spare :: n in nodes && nodes[n].free)
  }

  /** Allocated nodes with their sizes. */
  ghost function BlocksOf(nodes: map<nat, Node>, live: seq<nat>): map<nat, nat>
    requires forall n | n in live :: n in nodes
  {
    map n | n in live :: nodes[n].size
  }

  /** A list and one more element. */
  lemma Joined(l: seq<nat>, n: nat)
    requires Unique(l) && n !in l
    ensures Unique(l + [n]) && forall k :: k in l + [n] <==> k in l || k == n
  {
    var m := l + [n];
    forall i, j | 0 <= i < j < |m| ensures m[i] != m[j] { assert m[i] == l[i] && m[i] in l; }
    forall k ensures k in m <==> k in l || k == n {}
  }

  lemma BinnedExtend(a: map<nat, Node>, b: map<nat, Node>, tiles: seq<nat>, live: seq<nat>, spare: seq<nat>, n: nat, flag: bool)
    requires Binned(a, tiles, live, spare) && n !in tiles && n in b && b[n].free == flag
    requires forall k | k in tiles :: k in a && k in b && b[k].free == a[k].free && b[k].size == a[k].size
    ensures Binned(b, tiles + [n], live + (if flag then [] else [n]), spare + (if flag then [n] else []))
    ensures BlocksOf(b, live + (if flag then [] else [n])) == if flag then BlocksOf(a, live) else BlocksOf(a, live)[n := b[n].size]
  {
    var one: seq<nat>, none: seq<nat> := [n], [];
    Joined(live, n);
    Joined(spare, n);
    assert live + none == live && spare + none == spare;
    forall k ensures k in tiles + one <==> k in tiles || k == n {}
  }

  /** A free node is handed out. */
  lemma BinnedMove(a: map<nat, Node>, b: map<nat, Node>, tiles: seq<nat>, live: seq<nat>, spare: seq<nat>, n: nat)
    requires Binned(a, tiles, live, spare) && n in spare && n in b && !b[n].free
    requires forall k | k in tiles :: k in a && k in b && b[k].size == a[k].size && (k != n ==> b[k].free == a[k].free)
    ensures Binned(b, tiles, live + [n], Without(spare, n)) && BlocksOf(b, live + [n]) == BlocksOf(a, live)[n := a[n].size]
  {
    WithoutHas(spare, n);
    Joined(live, n);
  }

  lemma BinnedFree(a: map<nat, Node>, b: map<nat, Node>, tiles: seq<nat>, live: seq<nat>, spare: seq<nat>, n: nat)
    requires Binned(a, tiles, live, spare) && n in live && n in b && b[n].free
    requires forall k | k in tiles :: k in a && k in b && b[k].size == a[k].size && (k != n ==> b[k].free == a[k].free)
    ensures Binned(b, tiles, Without(live, n), spare + [n])
  {
    WithoutHas(live, n);
    Joined(spare, n);
  }

  lemma AllButLast(tiles: seq<nat>, n: nat)
    requires tiles != [] && tiles[|tiles| - 1] == n && n !in tiles[..|tiles| - 1]
    ensures forall k :: k in tiles[..|tiles| - 1] <==> k in tiles && k != n
  {
    assert tiles == tiles[..|tiles| - 1] + [n];
  }

  lemma BinnedDrop(a: map<nat, Node>, b: map<nat, Node>, tiles: seq<nat>, live: seq<nat>, spare: seq<nat>, n: nat)
    requires Binned(a, tiles, live, spare) && n in live
    requires forall k | k in tiles :: k in a && k in b && b[k].size == a[k].size && (k != n ==> b[k].free == a[k].free)
    requires tiles != [] && tiles[|tiles| - 1] == n && n !in tiles[..|tiles| - 1]
    ensures Binned(b, tiles[..|tiles| - 1], Without(live, n), spare)
  {
    WithoutHas(live, n);
    AllButLast(tiles, n);
  }

  /** Rewriting links everywhere and one FREE flag leaves sizes and other flags alone. */
  lemma OneFlag(a: map<nat, Node>, b: map<nat, Node>, tiles: seq<nat>, n: nat, free: bool)
    requires n in a && SameBodies(a[n := a[n].(free := free)], b) && forall k | k in tiles :: k in a
    ensures n in b && b[n].free == free && b[n].size == a[n].size
    ensures forall k | k in tiles :: k in a && k in b && b[k].size == a[k].size && (k != n ==> b[k].free == a[k].free)
  {
  }

  /** The allocated nodes without one of them. */
  lemma BlocksWithout(a: map<nat, Node>, b: map<nat, Node>, live: seq<nat>, n: nat)
    requires Unique(live) && n in live && forall k | k in live :: k in a && k in b && b[k].size == a[k].size
    ensures forall k | k in Without(live, n) :: k in b
    ensures BlocksOf(b, Without(live, n)) == BlocksOf(a, live) - {n}
  {
    WithoutHas(live, n);
  }

  /** The allocated nodes and one more. */
  lemma BlocksWith(a: map<nat, Node>, b: map<nat, Node>, live: seq<nat>, n: nat, size: nat)
    requires n in b && b[n].size == size && forall k | k in live && k != n :: k in a && k in b && b[k].size == a[k].size
    requires forall k | k in live :: k in a
    ensures (forall k | k in live + [n] :: k in b) && BlocksOf(b, live + [n]) == BlocksOf(a, live)[n := size]
  {
    forall k ensures k in live + [n] <==> k in live || k == n {}
  }

  /** A new node of the bump region. */
  lemma Grown(a: map<nat, Node>, b: map<nat, Node>, tiles: seq<nat>, live: seq<nat>, spare: seq<nat>, n: nat, size: nat, flag: bool, t: seq<nat>, end: nat)
    requires t == tiles + [n] && end == n + (HEADER + size) && Tiled(a, tiles, n) && Binned(a, tiles, live, spare) && n !in tiles && size % 16 == 0
    requires SameBodies(a[n := Made(size).(free := flag)], b)
    ensures n in b && b[n].size == size && forall k | k in tiles :: k in a && k in b && b[k].size == a[k].size
    ensures Tiled(b, t, end)
    ensures Binned(b, t, live + (if flag then [] else [n]), spare + (if flag then [n] else []))
    ensures BlocksOf(b, live + (if flag then [] else [n])) == if flag then BlocksOf(a, live) else BlocksOf(a, live)[n := size]
    ensures SparesOf(b, spare + (if flag then [n] else [])) == SparesOf(a, spare) + (if flag then [Spare(n, size)] else [])
  {
    TilesExtend(a, b, tiles, n, size);
    BinnedExtend(a, b, tiles, live, spare, n, flag);
    assert spare + [] == spare;
    if flag { SparesMore(a, b, spare, n); } else { SparesSame(a, b, spare); }
  }

  /** The topmost node goes back to the bump region. */
  lemma TopGone(a: map<nat, Node>, b: map<nat, Node>, tiles: seq<nat>, head: nat, live: seq<nat>, spare: seq<nat>, n: nat)
    requires Tiled(a, tiles, head) && Binned(a, tiles, live, spare) && n in live && End(a, n) == head
    requires SameBodies(a[n := a[n].(free := true)], b)
    ensures n in b && b[n].size == a[n].size && tiles != [] && Tiled(b, tiles[..|tiles| - 1], n)
    ensures Binned(b, tiles[..|tiles| - 1], Without(live, n), spare)
    ensures BlocksOf(b, Without(live, n)) == BlocksOf(a, live) - {n}
  {
    LastTile(a, tiles, head, n);
    TilesShrink(a, tiles, head);
    OneFlag(a, b, tiles, n, true);
    AllButLast(tiles, n);
    TilesSame(a, b, tiles[..|tiles| - 1], n);
    BinnedDrop(a, b, tiles, live, spare, n);
    BlocksWithout(a, b, live, n);
  }

  // ---------- the heap on values ----------

  /** A free node. */
  datatype Spare = Spare(at: nat, size: nat)

  /** The bump region, the sizes of the allocated nodes, and the free nodes in the order of their bin. */
  datatype HeapState = HeapState(head: nat, size: nat, blocks: map<nat, nat>, spare: seq<Spare>)

  function SparesOf(nodes: map<nat, Node>, l: seq<nat>): (r: seq<Spare>)
    requires forall n | n in l :: n in nodes
    ensures |r| == |l|
  {
    if l == [] then []
    else
      var n := l[|l| - 1];
      SparesOf(nodes, l[..|l| - 1]) + [Spare(n, nodes[n].size)]
  }

  lemma {:induction false} SparesAt(nodes: map<nat, Node>, l: seq<nat>, i: nat)
    requires (forall n | n in l :: n in nodes) && i < |l|
    ensures SparesOf(nodes, l)[i] == Spare(l[i], nodes[l[i]].size)
  {
    if i < |l| - 1 { SparesAt(nodes, l[..|l| - 1], i); }
  }

  function Drop<T>(s: seq<T>, i: nat): seq<T>
    requires i < |s|
  {
    s[..i] + s[i + 1..]
  }

  /** The first free node with at least `need` bytes. */
  function FirstBig(spare: seq<Spare>, need: nat): (r: Option<nat>)
    ensures r.Some? ==> r.value < |spare| && spare[r.value].size >= need && forall j | 0 <= j < r.value :: spare[j].size < need
    ensures r.None? ==> forall x | x in spare :: x.size < need
  {
    if spare == [] then None
    else if spare[0].size >= need then Some(0)
    else match FirstBig(spare[1..], need)
      case None => None
      case Some(i) => Some(i + 1)
  }

  /** What malloc or free leaves, and the address malloc answers with. */
  datatype Answer = Answer(p: Option<nat>, s: HeapState)

  /** A node of d bytes at the start of the bump region. */
  function Bumped(s: HeapState, d: nat): HeapState
    requires HEADER + d <= s.size
  {
    s.(head := s.head + HEADER + d, size := s.size - HEADER - d, blocks := s.blocks[s.head := d])
  }

  /** The first bytes of the bump region, header included, become the last free node. */
  function Padded(s: HeapState, padding: nat): HeapState
    requires HEADER <= padding <= s.size
  {
    s.(head := s.head + padding, size := s.size - padding, spare := s.spare + [Spare(s.head, padding - HEADER)])
  }

  /** The i-th free node is handed out whole. */
  function Whole(s: HeapState, i: nat): HeapState
    requires i < |s.spare|
  {
    s.(blocks := s.blocks[s.spare[i].at := s.spare[i].size], spare := Drop(s.spare, i))
  }

  /** Its first d bytes are handed out, and the rest becomes the last free node. */
  function CutOff(s: HeapState, i: nat, d: nat): HeapState
    requires i < |s.spare| && s.spare[i].size >= d + HEADER
  {
    var x := s.spare[i];
    s.(blocks := s.blocks[x.at := d], spare := Drop(s.spare, i) + [Spare(x.at + HEADER + d, x.size - d - HEADER)])
  }

  /** malloc of d rounded bytes once the bump region has no room: the first free node that can be cut, else the first that is big enough. */
  function RecycleOf(s: HeapState, d: nat): Answer {
    match FirstBig(s.spare, d + HEADER + MIN_NODE_SIZE)
    case Some(i) => Answer(Some(s.spare[i].at + HEADER), CutOff(s, i, d))
    case None =>
      match FirstBig(s.spare, d)
      case Some(i) => Answer(Some(s.spare[i].at + HEADER), Whole(s, i))
      case None => Answer(None, s)
  }

  lemma RecycleNone(s: HeapState, d: nat)
    requires s.spare == [] || (FirstBig(s.spare, d + HEADER + MIN_NODE_SIZE) == None && FirstBig(s.spare, d) == None)
    ensures RecycleOf(s, d) == Answer(None, s)
  {
  }

  lemma RecycleAt(s: HeapState, d: nat, part: bool, i: nat)
    requires i < |s.spare| && FirstBig(s.spare, d + HEADER + MIN_NODE_SIZE) == (if part then Some(i) else None)
    requires !part ==> FirstBig(s.spare, d) == Some(i)
    ensures part ==> s.spare[i].size >= d + HEADER
    ensures RecycleOf(s, d) == Answer(Some(s.spare[i].at + HEADER), if part then CutOff(s, i, d) else Whole(s, i))
  {
  }

  /** malloc */
  function MallocOf(s: HeapState, req: nat): Answer {
    if req == 0 then Answer(None, s)
    else if HEADER + AlignedSize(req) <= s.size then Answer(Some(s.head + HEADER), Bumped(s, AlignedSize(req)))
    else RecycleOf(s, AlignedSize(req))
  }

  /** Which half of malloc serves a request, and what goes wrong there. */
  lemma MallocCase(s: HeapState, req: nat, data: nat)
    requires 0 < req < U32 && data == AlignedSize(req) && s.size < U32
    ensures data % 16 == 0 && data < U32
    ensures (HEADER + data) % U32 <= s.size ==>
      && (HEADER + data >= U32 <==> Tears(s, req))
      && (HEADER + data < U32 ==> HEADER + data <= s.size && MallocOf(s, req) == Answer(Some(s.head + HEADER), Bumped(s, data)))
    ensures (HEADER + data) % U32 > s.size ==>
      && HEADER + data < U32 && (HEADER + data + MIN_NODE_SIZE >= U32 && s.spare != [] <==> Tears(s, req))
      && MallocOf(s, req) == RecycleOf(s, data)
  {
    WrappedSizes(req);
    if HEADER + data < U32 { DivModUnique(HEADER + data, 0, HEADER + data, U32); }
  }

  /** malloc_aligned with its padding: without room for padding and data it refuses; padding becomes a free node before malloc is asked. */
  function AlignedOf(s: HeapState, padding: nat, req: nat): Answer {
    if padding == 0 then MallocOf(s, req)
    else if s.size < padding + req || padding < HEADER then Answer(None, s)
    else MallocOf(Padded(s, padding), req)
  }

  /** free of the data of node n; one that is free already is left alone. */
  function FreeOf(s: HeapState, n: nat): HeapState {
    if n !in s.blocks then s
    else
      var size := s.blocks[n];
      if n + HEADER + size == s.head then s.(head := n, size := s.size + HEADER + size, blocks := s.blocks - {n})
      else s.(blocks := s.blocks - {n}, spare := s.spare + [Spare(n, size)])
  }

  // ---------- what malloc promises ----------

  ghost predicate Sound(s: HeapState) {
    s.head !in s.blocks && s.head % 16 == 0 && forall x | x in s.spare :: x.at !in s.blocks && x.at % 16 == 0
  }

  /** The requests whose wrapped sizes make malloc write headers that fit no tiling. */
  predicate Tears(s: HeapState, req: nat) {
    || 0xFFFF_FFE0 < req <= 0xFFFF_FFF0
    || (0xFFFF_FFD0 < req <= 0xFFFF_FFE0 && s.size < 0xFFFF_FFF0 && s.spare != [])
  }

  /** There is room for a rounded size: in the bump region or in some free node. */
  ghost predicate Room(s: HeapState, d: nat) {
    HEADER + d <= s.size || exists x :: x in s.spare && x.size >= d
  }

  /**
   What becomes of a free node x of which d bytes are asked for: with room to spare for another node it is cut
   to exactly d bytes and the rest, less a header, becomes the last free node; otherwise all of it is handed out.
   */
  predicate Spent(x: Spare, others: seq<Spare>, r: HeapState, d: nat) {
    && x.at in r.blocks && x.size >= d
    && if x.size >= d + HEADER + MIN_NODE_SIZE
       then r.blocks[x.at] == d && r.spare == others + [Spare(x.at + HEADER + d, x.size - d - HEADER)]
       else r.blocks[x.at] == x.size && r.spare == others
  }

  /** The node at n was free, and became what it should; no other free node has changed. */
  ghost predicate TakenFrom(s: HeapState, r: HeapState, n: nat, d: nat) {
    exists i: nat :: i < |s.spare| && s.spare[i].at == n && Spent(s.spare[i], Drop(s.spare, i), r, d)
  }

  /** What a malloc that takes a free node does. */
  ghost predicate Took(s: HeapState, r: HeapState, n: nat, d: nat) {
    && n in r.blocks && r == s.(blocks := s.blocks[n := r.blocks[n]], spare := r.spare)
    && d <= r.blocks[n] < d + HEADER + MIN_NODE_SIZE && TakenFrom(s, r, n, d)
  }

  lemma TookSpare(s: HeapState, i: nat, d: nat, r: HeapState)
    requires i < |s.spare| && s.spare[i].size >= d
    requires if s.spare[i].size >= d + HEADER + MIN_NODE_SIZE then r == CutOff(s, i, d) else r == Whole(s, i)
    ensures Took(s, r, s.spare[i].at, d)
  {
    assert Spent(s.spare[i], Drop(s.spare, i), r, d);
  }

  lemma RecycleTold(s: HeapState, d: nat)
    ensures var p, r := RecycleOf(s, d).p, RecycleOf(s, d).s;
      && (p.Some? <==> exists x :: x in s.spare && x.size >= d) && (p.None? ==> r == s)
      && (p.Some? ==> p.value >= HEADER && Took(s, r, p.value - HEADER, d))
  {
    match FirstBig(s.spare, d + HEADER + MIN_NODE_SIZE)
    case Some(i) =>
      assert s.spare[i] in s.spare;
      TookSpare(s, i, d, RecycleOf(s, d).s);
    case None =>
      match FirstBig(s.spare, d)
      case Some(i) =>
        assert s.spare[i] in s.spare;
        TookSpare(s, i, d, RecycleOf(s, d).s);
      case None =>
  }

  /**
   What malloc of d rounded bytes makes of a heap. It answers with a node exactly if there is room. The node is no
   allocated one, it has at least d bytes and wastes less than a header and a smallest node; it is the start of the
   bump region if that has room, else a free node, cut if another node can be left over.
   */
  ghost predicate Granted(s: HeapState, r: HeapState, p: Option<nat>, d: nat) {
    && (p.Some? <==> Room(s, d)) && (p.None? ==> r == s)
    && (p.Some? ==>
          var n := p.value - HEADER;
          && n >= 0 && n % 16 == 0 && n !in s.blocks && n in r.blocks && r.blocks - {n} == s.blocks
          && d <= r.blocks[n] < d + HEADER + MIN_NODE_SIZE
          && (HEADER + d <= s.size ==> n == s.head && r == s.(head := n + HEADER + d, size := s.size - HEADER - d, blocks := s.blocks[n := d]))
          && (HEADER + d > s.size ==> r.head == s.head && r.size == s.size && TakenFrom(s, r, n, d)))
  }

  lemma MallocTold(s: HeapState, req: nat)
    requires Sound(s) && req > 0
    ensures Granted(s, MallocOf(s, req).s, MallocOf(s, req).p, AlignedSize(req))
  {
    if HEADER + AlignedSize(req) <= s.size { BumpTold(s, AlignedSize(req)); } else { RecycledTold(s, AlignedSize(req)); }
  }

  lemma BumpTold(s: HeapState, d: nat)
    requires Sound(s) && HEADER + d <= s.size
    ensures Granted(s, Bumped(s, d), Some(s.head + HEADER), d)
  {
    WithoutNew(s.blocks, s.head, d);
  }

  lemma RecycledTold(s: HeapState, d: nat)
    requires Sound(s) && HEADER + d > s.size
    ensures Granted(s, RecycleOf(s, d).s, RecycleOf(s, d).p, d)
  {
    RecycleTold(s, d);
    TookGranted(s, RecycleOf(s, d).s, RecycleOf(s, d).p, d);
  }

  lemma TookGranted(s: HeapState, r: HeapState, p: Option<nat>, d: nat)
    requires Sound(s) && HEADER + d > s.size
    requires (p.Some? <==> exists x :: x in s.spare && x.size >= d) && (p.None? ==> r == s)
    requires p.Some? ==> p.value >= HEADER && Took(s, r, p.value - HEADER, d)
    ensures Granted(s, r, p, d)
  {
    if p.Some? { TookNew(s, r, p.value - HEADER, d); }
  }

  /** A node that was free is no allocated one. */
  lemma TookNew(s: HeapState, r: HeapState, n: nat, d: nat)
    requires Sound(s) && Took(s, r, n, d)
    ensures n % 16 == 0 && n !in s.blocks && r.blocks - {n} == s.blocks
  {
    var i: nat :| i < |s.spare| && s.spare[i].at == n && Spent(s.spare[i], Drop(s.spare, i), r, d);
    assert s.spare[i] in s.spare;
    WithoutNew(s.blocks, n, r.blocks[n]);
  }

  lemma WithoutNew(m: map<nat, nat>, n: nat, v: nat)
    requires n !in m
    ensures m[n := v] - {n} == m
  {
  }

  /** free undoes a malloc that was served from the bump region. */
  lemma MallocThenFree(s: HeapState, req: nat)
    requires Sound(s) && req > 0 && HEADER + AlignedSize(req) <= s.size
    ensures MallocOf(s, req).p.Some? && FreeOf(MallocOf(s, req).s, MallocOf(s, req).p.value - HEADER) == s
  {
    WithoutNew(s.blocks, s.head, AlignedSize(req));
  }

  /** The bytes of the pool: bump region, and nodes with their headers. */
  ghost function Bytes(spare: seq<Spare>): nat {
    if spare == [] then 0 else Bytes(spare[..|spare| - 1]) + HEADER + spare[|spare| - 1].size
  }

  lemma {:induction false} BytesDrop(spare: seq<Spare>, i: nat)
    requires i < |spare|
    ensures Bytes(spare) == Bytes(Drop(spare, i)) + HEADER + spare[i].size
  {
    var k := |spare| - 1;
    if i < k {
      BytesDrop(spare[..k], i);
      assert Drop(spare, i)[..k - 1] == Drop(spare[..k], i);
    } else {
      assert Drop(spare, i) == spare[..k];
    }
  }

  lemma SpentBytes(x: Spare, others: seq<Spare>, r: HeapState, d: nat)
    requires Spent(x, others, r, d)
    ensures Bytes(others) + HEADER + x.size == Bytes(r.spare) + HEADER + r.blocks[x.at]
  {
    if x.size >= d + HEADER + MIN_NODE_SIZE {
      assert r.spare[..|r.spare| - 1] == others;
    }
  }

  /** What a malloc takes from the free memory is the node it hands out, with its header: nothing is lost. */
  lemma NothingLost(s: HeapState, req: nat)
    requires Sound(s) && req > 0 && MallocOf(s, req).p.Some?
    ensures var n, r := MallocOf(s, req).p.value - HEADER, MallocOf(s, req).s;
      n >= 0 && n in r.blocks && s.size + Bytes(s.spare) == r.size + Bytes(r.spare) + HEADER + r.blocks[n]
  {
    MallocTold(s, req);
    if HEADER + AlignedSize(req) > s.size {
      TookBytes(s, MallocOf(s, req).s, MallocOf(s, req).p.value - HEADER, AlignedSize(req));
    }
  }

  lemma TookBytes(s: HeapState, r: HeapState, n: nat, d: nat)
    requires TakenFrom(s, r, n, d)
    ensures n in r.blocks && Bytes(s.spare) == Bytes(r.spare) + HEADER + r.blocks[n]
  {
    var i: nat :| i < |s.spare| && s.spare[i].at == n && Spent(s.spare[i], Drop(s.spare, i), r, d);
    BytesDrop(s.spare, i);
    SpentBytes(s.spare[i], Drop(s.spare, i), r, d);
  }

  /** Freeing a node gives all of it back: to the bump region if it is the topmost one, else as the last free node. */
  lemma FreeTold(s: HeapState, n: nat)
    requires n in s.blocks && n + HEADER + s.blocks[n] <= s.head
    ensures var r := FreeOf(s, n);
      && r.blocks == s.blocks - {n} && r.size + Bytes(r.spare) == s.size + Bytes(s.spare) + HEADER + s.blocks[n]
      && (n + HEADER + s.blocks[n] == s.head <==> r.head != s.head) && (r.head != s.head ==> r.head == n && r.spare == s.spare)
      && (r.head == s.head ==> r.spare == s.spare + [Spare(n, s.blocks[n])] && r.size == s.size)
  {
    assert (s.spare + [Spare(n, s.blocks[n])])[..|s.spare|] == s.spare;
  }

  /**
   malloc_aligned with padding: it refuses at once exactly if the bump region is smaller than padding and data; else
   the padding has become a free node, and it refuses exactly if there is no room for the size computed in what is
   left, that node included. Nothing is lost either way.
   */
  lemma AlignedTold(s: HeapState, padding: nat, req: nat)
    requires Sound(s) && req > 0 && HEADER <= padding && padding % 16 == 0 && forall n | n in s.blocks :: n < s.head
    ensures var p, r, d := AlignedOf(s, padding, req).p, AlignedOf(s, padding, req).s, AlignedSize(req);
      && (s.size < padding + req ==> p == None && r == s)
      && (s.size >= padding + req ==>
            && (p.None? <==> s.size < padding + HEADER + d && padding - HEADER < d && forall x | x in s.spare :: x.size < d)
            && (p.None? ==> r.head == s.head + padding && r.spare == s.spare + [Spare(s.head, padding - HEADER)]))
      && s.size + Bytes(s.spare) == r.size + Bytes(r.spare) + (if p.Some? && p.value >= HEADER && p.value - HEADER in r.blocks then HEADER + r.blocks[p.value - HEADER] else 0)
  {
    if s.size >= padding + req {
      PaddedSound(s, padding);
      PaddedTold(s, Padded(s, padding), padding, req);
    }
  }

  lemma PaddedTold(s: HeapState, t: HeapState, padding: nat, req: nat)
    requires Sound(t) && req > 0 && HEADER <= padding <= s.size && t == Padded(s, padding)
    ensures var p, r, d := MallocOf(t, req).p, MallocOf(t, req).s, AlignedSize(req);
      && (p.None? <==> s.size < padding + HEADER + d && padding - HEADER < d && forall x | x in s.spare :: x.size < d)
      && (p.None? ==> r == t)
      && s.size + Bytes(s.spare) == r.size + Bytes(r.spare) + (if p.Some? && p.value >= HEADER && p.value - HEADER in r.blocks then HEADER + r.blocks[p.value - HEADER] else 0)
  {
    MallocTold(t, req);
    PaddedRoom(s, padding, AlignedSize(req));
    if MallocOf(t, req).p.Some? { NothingLost(t, req); }
  }

  lemma PaddedRoom(s: HeapState, padding: nat, d: nat)
    requires HEADER <= padding <= s.size
    ensures Room(Padded(s, padding), d) <==> s.size >= padding + HEADER + d || padding - HEADER >= d || exists x :: x in s.spare && x.size >= d
    ensures Bytes(Padded(s, padding).spare) == Bytes(s.spare) + padding
  {
    var spare, more := s.spare, s.spare + [Spare(s.head, padding - HEADER)];
    assert more[..|spare|] == spare;
    assert more[|spare|] in more;
    forall x | x in spare ensures x in more {}
  }

  /** The requests for which malloc keeps its promise: a region of at least req bytes, or none if there is no room for one. */
  ghost predicate Served(s: HeapState, req: nat) {
    && !Tears(s, req)
    && match MallocOf(s, req).p
       case None => !Room(s, RoundUp(req))
       case Some(d) => d >= HEADER && d - HEADER in MallocOf(s, req).s.blocks && MallocOf(s, req).s.blocks[d - HEADER] >= req
  }

  lemma ServedWhen(s: HeapState, req: nat)
    requires Sound(s) && 0 < req < U32 && s.size < U32 && forall x | x in s.spare :: x.size < 0xFFFF_FFF0
    ensures Served(s, req) <==>
      || req <= MAX_REQUEST
      || (req <= 0xFFFF_FFE0 && (s.size >= 0xFFFF_FFF0 || s.spare == []))
      || (req > 0xFFFF_FFF0 && s.size < HEADER && s.spare == [])
  {
    if req <= MAX_REQUEST { ServedSmall(s, req); }
    else if req <= 0xFFFF_FFE0 { ServedLarge(s, req); }
    else if req > 0xFFFF_FFF0 { ServedLast(s, req); }
  }

  lemma ServedSmall(s: HeapState, req: nat)
    requires Sound(s) && 0 < req <= MAX_REQUEST
    ensures Served(s, req)
  {
    WrappedSizes(req);
    MallocTold(s, req);
    AlignedCovers(req);
  }

  lemma ServedLarge(s: HeapState, req: nat)
    requires Sound(s) && MAX_REQUEST < req <= 0xFFFF_FFE0 && s.size < U32
    ensures Served(s, req) <==> s.size >= 0xFFFF_FFF0 || s.spare == []
  {
    WrappedSizes(req);
    MallocTold(s, req);
  }

  lemma ServedLast(s: HeapState, req: nat)
    requires Sound(s) && 0xFFFF_FFF0 < req < U32 && s.size < U32 && forall x | x in s.spare :: x.size < 0xFFFF_FFF0
    ensures Served(s, req) <==> s.size < HEADER && s.spare == []
  {
    WrappedSizes(req);
    MallocTold(s, req);
    if s.spare != [] { assert s.spare[0] in s.spare; }
  }

  lemma AlignedCovers(req: nat)
    requires 0 < req <= 0xFFFF_FFF0
    ensures AlignedSize(req) >= req
  {
    var q := AlignedIs(req);
  }

  /** A successful malloc adds one node, large enough, and changes no other; so does malloc_aligned. */
  lemma MallocAllocates(s: HeapState, req: nat)
    requires Sound(s) && req <= MAX_REQUEST
    ensures Allocated(MallocOf(s, req).p, req, s.blocks, MallocOf(s, req).s.blocks)
  {
    if req > 0 {
      AlignedCovers(req);
      MallocNode(s, req);
      var p, r := MallocOf(s, req).p, MallocOf(s, req).s;
      if p.Some? { NodeAllocated(p.value - HEADER, AlignedSize(req), req, s.blocks, r.blocks); }
    }
  }

  lemma MallocNode(s: HeapState, req: nat)
    requires Sound(s) && req > 0
    ensures var p, r := MallocOf(s, req).p, MallocOf(s, req).s;
      && (p.None? ==> r == s)
      && (p.Some? ==>
            var n := p.value - HEADER;
            n >= 0 && n % 16 == 0 && n !in s.blocks && n in r.blocks && r.blocks - {n} == s.blocks && r.blocks[n] >= AlignedSize(req))
  {
    MallocTold(s, req);
  }

  lemma NodeAllocated(n: nat, d: nat, req: nat, before: map<nat, nat>, after: map<nat, nat>)
    requires n % 16 == 0 && n !in before && n in after && after - {n} == before && req <= d <= after[n]
    ensures Allocated(Some(n + HEADER), req, before, after)
  {
    assert n + HEADER - HEADER == n;
  }

  lemma AlignedAllocates(s: HeapState, padding: nat, req: nat)
    requires Sound(s) && req <= MAX_REQUEST && padding % 16 == 0 && forall n | n in s.blocks :: n < s.head
    ensures Allocated(AlignedOf(s, padding, req).p, req, s.blocks, AlignedOf(s, padding, req).s.blocks)
    ensures req > 0 && padding + HEADER + AlignedSize(req) <= s.size ==> AlignedOf(s, padding, req).p == Some(s.head + padding + HEADER)
  {
    if req > 0 { SizesExact(req); }
    if padding == 0 {
      MallocAllocates(s, req);
    } else if s.size >= padding + req && padding >= HEADER {
      PaddedSound(s, padding);
      MallocAllocates(Padded(s, padding), req);
    }
  }

  lemma PaddedSound(s: HeapState, padding: nat)
    requires Sound(s) && HEADER <= padding <= s.size && padding % 16 == 0 && forall n | n in s.blocks :: n < s.head
    ensures Sound(Padded(s, padding))
  {
  }

  /** The spare nodes without one of them. */
  lemma SparesWithout(a: map<nat, Node>, b: map<nat, Node>, l: seq<nat>, i: nat)
    requires Unique(l) && i < |l| && (forall n | n in l :: n in a) && forall n | n in l && n != l[i] :: n in b && b[n].size == a[n].size
    ensures forall n | n in Without(l, l[i]) :: n in b
    ensures SparesOf(b, Without(l, l[i])) == Drop(SparesOf(a, l), i)
  {
    WithoutHas(l, l[i]);
    WithoutAt(l, i);
    DroppedSpares(a, b, l, i, Without(l, l[i]));
  }

  lemma DroppedSpares(a: map<nat, Node>, b: map<nat, Node>, l: seq<nat>, i: nat, m: seq<nat>)
    requires i < |l| && m == l[..i] + l[i + 1..] && (forall n | n in l :: n in a) && forall n | n in m :: n in b && n in a && b[n].size == a[n].size
    ensures SparesOf(b, m) == Drop(SparesOf(a, l), i)
  {
    var s, r := SparesOf(b, m), Drop(SparesOf(a, l), i);
    forall k: nat | k < |s| ensures s[k] == r[k] {
      assert m[k] in m && m[k] == l[if k < i then k else k + 1];
      SparesAt(b, m, k);
      SparesAt(a, l, if k < i then k else k + 1);
    }
  }

  /** The spare nodes when others change. */
  lemma {:induction false} SparesSame(a: map<nat, Node>, b: map<nat, Node>, l: seq<nat>)
    requires forall n | n in l :: n in a && n in b && b[n].size == a[n].size
    ensures SparesOf(b, l) == SparesOf(a, l)
  {
    if l != [] { SparesSame(a, b, l[..|l| - 1]); }
  }

  /** One more spare node. */
  lemma SparesMore(a: map<nat, Node>, b: map<nat, Node>, l: seq<nat>, n: nat)
    requires (forall k | k in l :: k in a && k in b && b[k].size == a[k].size) && n in b
    ensures (forall k | k in l + [n] :: k in b) && SparesOf(b, l + [n]) == SparesOf(a, l) + [Spare(n, b[n].size)]
  {
    var m := l + [n];
    forall k | k in m ensures k in b {}
    assert m[..|l|] == l;
    SparesSame(a, b, l);
  }

  lemma SparesCut(a: map<nat, Node>, b: map<nat, Node>, l: seq<nat>, i: nat, cut: nat)
    requires Unique(l) && i < |l| && (forall n | n in l :: n in a) && (forall n | n in l && n != l[i] :: n in b && b[n].size == a[n].size) && cut in b
    ensures forall n | n in Without(l, l[i]) + [cut] :: n in b
    ensures SparesOf(b, Without(l, l[i]) + [cut]) == Drop(SparesOf(a, l), i) + [Spare(cut, b[cut].size)]
  {
    SparesWithout(a, b, l, i);
    SparesMore(b, b, Without(l, l[i]), cut);
  }

  lemma SparesTail(nodes: map<nat, Node>, l: seq<nat>)
    requires l != [] && forall n | n in l :: n in nodes
    ensures SparesOf(nodes, l)[1..] == SparesOf(nodes, l[1..])
  {
    var s, r := SparesOf(nodes, l)[1..], SparesOf(nodes, l[1..]);
    forall k: nat | k < |s| ensures s[k] == r[k] {
      SparesAt(nodes, l, k + 1);
      SparesAt(nodes, l[1..], k);
    }
  }

  /** The search of the free bin, by position. */
  lemma {:induction false} FirstIn(nodes: map<nat, Node>, l: seq<nat>, need: nat) returns (i: nat)
    requires forall n | n in l :: n in nodes
    ensures FirstFit(nodes, l, need).None? ==> FirstBig(SparesOf(nodes, l), need) == None
    ensures FirstFit(nodes, l, need).Some? ==>
      FirstBig(SparesOf(nodes, l), need) == Some(i) && i < |l| && FirstFit(nodes, l, need) == Some(l[i])
  {
    i := 0;
    if l != [] { SparesAt(nodes, l, 0); }
    if l != [] && nodes[l[0]].size < need {
      SparesTail(nodes, l);
      var j := FirstIn(nodes, l[1..], need);
      i := j + 1;
    }
  }

  /** What the cut makes of tiles, bins, blocks and free nodes. */
  lemma CutValue(a: map<nat, Node>, b: map<nat, Node>, tiles: seq<nat>, head: nat, live: seq<nat>, spare: seq<nat>,
                 n: nat, data: nat, cut: nat, i: nat, j: nat, t: seq<nat>, rest: nat)
    requires Tiled(a, tiles, head) && Binned(a, tiles, live, spare) && i < |spare| && spare[i] == n && j < |tiles| && tiles[j] == n
    requires cut !in tiles && cut == n + HEADER + data && data % 16 == 0 && rest + data + HEADER == a[n].size
    requires t == tiles[..j + 1] + [cut] + tiles[j + 1..]
    requires SameBodies(a[cut := Made(rest).(free := true)][n := Made(data).(resizeable := true)], b)
    ensures Tiled(b, t, head) && Binned(b, t, live + [n], Without(spare, n) + [cut])
    ensures BlocksOf(b, live + [n]) == BlocksOf(a, live)[n := data]
    ensures SparesOf(b, Without(spare, n) + [cut]) == Drop(SparesOf(a, spare), i) + [Spare(cut, rest)]
  {
    TilesSplit(a, b, tiles, head, j, data, cut);
    BinnedSplit(a, b, tiles, t, live, spare, j, cut);
    BlocksWith(a, b, live, n, data);
    SparesCut(a, b, spare, i, cut);
  }

  lemma FirstSpare(nodes: map<nat, Node>, l: seq<nat>, data: nat, part: bool, n: nat) returns (i: nat)
    requires forall k | k in l :: k in nodes
    requires if part then FirstFit(nodes, l, data + HEADER + MIN_NODE_SIZE) == Some(n)
      else FirstFit(nodes, l, data + HEADER + MIN_NODE_SIZE) == None && FirstFit(nodes, l, data) == Some(n)
    ensures i < |l| && l[i] == n && SparesOf(nodes, l)[i].at == n
    ensures FirstBig(SparesOf(nodes, l), data + HEADER + MIN_NODE_SIZE) == (if part then Some(i) else None)
    ensures !part ==> FirstBig(SparesOf(nodes, l), data) == Some(i)
  {
    i := FirstIn(nodes, l, data + HEADER + MIN_NODE_SIZE);
    if !part { i := FirstIn(nodes, l, data); }
    SparesAt(nodes, l, i);
  }

  /** The padding malloc_aligned takes: none up to an alignment of 16. */
  function PaddingTaken(base: nat, head: nat, align: nat): nat {
    if CeilPow2(align) <= 16 then 0 else Padding(base + head + HEADER, CeilPow2(align))
  }

  lemma AlignedPromise(base: nat, s: HeapState, align: nat, padding: nat, req: nat)
    requires base % 16 == 0 && Sound(s) && req <= MAX_REQUEST && padding % 16 == 0 && (forall n | n in s.blocks :: n < s.head)
    requires padding == PaddingTaken(base, s.head, align)
    ensures var p, a := AlignedOf(s, padding, req).p, CeilPow2(align);
      && Allocated(p, req, s.blocks, AlignedOf(s, padding, req).s.blocks)
      && (a > 16 && req > 0 && padding + HEADER + AlignedSize(req) <= s.size ==> p.Some? && (base + p.value) % a == 0)
  {
    AlignedAllocates(s, padding, req);
    if CeilPow2(align) > 16 { DataAligned(base, s, align, padding, req); }
  }

  /** Behind the padding the data is aligned. */
  lemma DataAligned(base: nat, s: HeapState, align: nat, padding: nat, req: nat)
    requires base % 16 == 0 && Sound(s) && req <= MAX_REQUEST && padding % 16 == 0 && (forall n | n in s.blocks :: n < s.head)
    requires CeilPow2(align) > 16 && padding == PaddingTaken(base, s.head, align)
    ensures req > 0 && padding + HEADER + AlignedSize(req) <= s.size ==>
      AlignedOf(s, padding, req).p.Some? && (base + AlignedOf(s, padding, req).p.value) % CeilPow2(align) == 0
  {
    AlignedAllocates(s, padding, req);
    PaddingAt(base, s.head, align, CeilPow2(align), padding, base + (s.head + padding + HEADER));
  }

  /** The place of the node picked in the free bin, or what its absence means. */
  lemma Placed(nodes: map<nat, Node>, l: seq<nat>, s: HeapState, found: Option<nat>, part: bool, data: nat) returns (i: nat)
    requires (forall k | k in l :: k in nodes) && s.spare == SparesOf(nodes, l)
    requires HEADER + data + MIN_NODE_SIZE >= U32 ==> (l == [] <==> found.None?)
    requires HEADER + data + MIN_NODE_SIZE < U32 ==>
      if found.Some? && part then found == FirstFit(nodes, l, data + HEADER + MIN_NODE_SIZE)
      else FirstFit(nodes, l, data + HEADER + MIN_NODE_SIZE) == None && found == FirstFit(nodes, l, data)
    ensures found.None? ==> RecycleOf(s, data) == Answer(None, s)
    ensures HEADER + data + MIN_NODE_SIZE < U32 && found.Some? ==>
      && i < |l| == |s.spare| && l[i] == found.value && (part ==> s.spare[i].size >= data + HEADER)
      && RecycleOf(s, data) == Answer(Some(found.value + HEADER), if part then CutOff(s, i, data) else Whole(s, i))
  {
    i := 0;
    if found.None? {
      NotPicked(nodes, l, s, data);
    } else if HEADER + data + MIN_NODE_SIZE < U32 {
      i := FirstSpare(nodes, l, data, part, found.value);
      RecycleAt(s, data, part, i);
    }
  }

  lemma NotPicked(nodes: map<nat, Node>, l: seq<nat>, s: HeapState, data: nat)
    requires (forall k | k in l :: k in nodes) && s.spare == SparesOf(nodes, l)
    requires l == [] || (FirstFit(nodes, l, data + HEADER + MIN_NODE_SIZE) == None && FirstFit(nodes, l, data) == None)
    ensures RecycleOf(s, data) == Answer(None, s)
  {
    var a := FirstIn(nodes, l, data + HEADER + MIN_NODE_SIZE);
    var b := FirstIn(nodes, l, data);
    RecycleNone(s, data);
  }

  /** heap_allocator_t */
  class KernelHeap {
    const base: nat
    var head: nat
    var size: nat
    const pool: Pool
    const allocBin: HeapBin
    const freeBin: HeapBin
    ghost var tiles: seq<nat>

    /** construct_heap */
    constructor (base: nat, poolSize: nat)
      requires poolSize < U32 && base + poolSize <= U32
      ensures Valid() && fresh(pool) && fresh(allocBin) && fresh(freeBin)
      ensures this.base == base && head == 0 && size == poolSize && Blocks() == map[]
    {
      this.base, head, size := base, 0, poolSize;
      pool := new Pool();
      allocBin := new HeapBin();
      freeBin := new HeapBin();
      tiles := [];
    }

    ghost predicate Valid()
      reads this, pool, allocBin, freeBin
    {
      && allocBin != freeBin && allocBin.Linked(pool.nodes) && freeBin.Linked(pool.nodes)
      && Tiled(pool.nodes, tiles, head) && Binned(pool.nodes, tiles, allocBin.list, freeBin.list)
      && head + size < U32 && base + head + size <= U32
    }

    /** The allocated nodes with their sizes. */
    ghost function Blocks(): map<nat, nat>
      requires Valid()
      reads this, pool, allocBin, freeBin
    {
      BlocksOf(pool.nodes, allocBin.list)
    }

    /** The whole heap as a value. */
    ghost function Snap(): HeapState
      requires Valid()
      reads this, pool, allocBin, freeBin
    {
      HeapState(head, size, Blocks(), SparesOf(pool.nodes, freeBin.list))
    }

    /** Allocated nodes do not overlap, and all lie below head. */
    lemma BlocksApart(a: nat, b: nat)
      requires Valid() && a in Blocks()
      ensures a + HEADER + Blocks()[a] <= head
      ensures b in Blocks() && a != b ==> a + HEADER + Blocks()[a] <= b || b + HEADER + Blocks()[b] <= a
    {
      TilesUnique(pool.nodes, tiles, head);
      assert a in tiles;
      if b in Blocks() && a != b { TilesApart(pool.nodes, tiles, head, a, b); }
    }

    /** No node starts in the bump region. */
    lemma AllBelow(n: nat)
      requires Valid() && n >= head
      ensures n !in tiles && n !in allocBin.list && n !in freeBin.list
    {
      TilesUnique(pool.nodes, tiles, head);
    }

    /** Push a node on one of the bins; the other one does not notice. */
    method PushTo(n: nat, spare: bool)
      requires allocBin != freeBin && allocBin.Linked(pool.nodes) && freeBin.Linked(pool.nodes)
      requires n in pool.nodes && n !in allocBin.list && n !in freeBin.list && forall k | k in allocBin.list :: k !in freeBin.list
      modifies pool, allocBin, freeBin
      ensures allocBin.Linked(pool.nodes) && freeBin.Linked(pool.nodes) && SameBodies(old(pool.nodes), pool.nodes)
      ensures freeBin.list == old(freeBin.list) + (if spare then [n] else [])
      ensures allocBin.list == old(allocBin.list) + (if spare then [] else [n])
    {
      ghost var nodes := pool.nodes;
      if spare {
        freeBin.Push(pool, n);
        ChainSame(nodes, pool.nodes, allocBin.list, allocBin.head, allocBin.tail);
      } else {
        allocBin.Push(pool, n);
        ChainSame(nodes, pool.nodes, freeBin.list, freeBin.head, freeBin.tail);
      }
    }

    /** Remove a node from one of the bins. */
    method RemoveFrom(n: nat, spare: bool)
      requires allocBin != freeBin && allocBin.Linked(pool.nodes) && freeBin.Linked(pool.nodes)
      requires forall k | k in allocBin.list :: k !in freeBin.list
      requires if spare then n in freeBin.list else n in allocBin.list
      modifies pool, allocBin, freeBin
      ensures allocBin.Linked(pool.nodes) && freeBin.Linked(pool.nodes) && SameBodies(old(pool.nodes), pool.nodes)
      ensures freeBin.list == if spare then Without(old(freeBin.list), n) else old(freeBin.list)
      ensures allocBin.list == if spare then old(allocBin.list) else Without(old(allocBin.list), n)
    {
      ghost var nodes := pool.nodes;
      if spare {
        freeBin.Remove(pool, n);
        ChainSame(nodes, pool.nodes, allocBin.list, allocBin.head, allocBin.tail);
      } else {
        allocBin.Remove(pool, n);
        ChainSame(nodes, pool.nodes, freeBin.list, freeBin.head, freeBin.tail);
      }
    }

    /** Write the header of a node that is in no bin. */
    method WriteNode(n: nat, node: Node)
      requires allocBin.Linked(pool.nodes) && freeBin.Linked(pool.nodes) && n !in allocBin.list && n !in freeBin.list
      modifies pool
      ensures allocBin.Linked(pool.nodes) && freeBin.Linked(pool.nodes) && pool.nodes == old(pool.nodes)[n := node]
    {
      ghost var nodes := pool.nodes;
      pool.nodes := pool.nodes[n := node];
      ChainSame(nodes, pool.nodes, allocBin.list, allocBin.head, allocBin.tail);
      ChainSame(nodes, pool.nodes, freeBin.list, freeBin.head, freeBin.tail);
    }

    /** Take a node from the bump region; `spare` says which bin it goes to. */
    method Extend(data: nat, spare: bool)
      requires Valid() && HEADER + data <= size && data % 16 == 0
      modifies this`head, this`size, this`tiles, pool, allocBin, freeBin
      ensures Valid() && head == old(head) + HEADER + data && head + size == old(head + size)
      ensures old(head) in pool.nodes && pool.nodes[old(head)].size == data
      ensures forall n | n in old(tiles) :: n in old(pool.nodes) && n in pool.nodes && pool.nodes[n].size == old(pool.nodes)[n].size
      ensures tiles == old(tiles) + [old(head)]
      ensures freeBin.list == old(freeBin.list) + (if spare then [old(head)] else [])
      ensures allocBin.list == old(allocBin.list) + (if spare then [] else [old(head)])
      ensures Blocks() == if spare then old(Blocks()) else old(Blocks())[old(head) := data]
      ensures Snap() == if spare then Padded(old(Snap()), HEADER + data) else Bumped(old(Snap()), data)
    {
      var taken := HEADER + data;
      var end := head + taken;
      ghost var t := tiles + [head];
      MakeTop(head, data, spare, end, t);
      head, size, tiles := end, size - taken, t;
    }

    /** The new node at head. */
    method MakeTop(n: nat, data: nat, spare: bool, end: nat, ghost t: seq<nat>)
      requires Valid() && n == head && data % 16 == 0 && end == n + (HEADER + data) && t == tiles + [n]
      modifies pool, allocBin, freeBin
      ensures n in pool.nodes && pool.nodes[n].size == data && Tiled(pool.nodes, t, end)
      ensures allocBin.Linked(pool.nodes) && freeBin.Linked(pool.nodes)
      ensures Binned(pool.nodes, t, allocBin.list, freeBin.list)
      ensures forall k | k in tiles :: k in old(pool.nodes) && k in pool.nodes && pool.nodes[k].size == old(pool.nodes)[k].size
      ensures freeBin.list == old(freeBin.list) + (if spare then [n] else [])
      ensures allocBin.list == old(allocBin.list) + (if spare then [] else [n])
      ensures BlocksOf(pool.nodes, allocBin.list) == if spare then old(Blocks()) else old(Blocks())[n := data]
      ensures SparesOf(pool.nodes, freeBin.list) == old(Snap()).spare + if spare then [Spare(n, data)] else []
    {
      ghost var nodes, live, free := pool.nodes, allocBin.list, freeBin.list;
      AllBelow(n);
      AddNode(n, Made(data).(free := spare), spare);
      Grown(nodes, pool.nodes, tiles, live, free, n, data, spare, t, end);
    }

    /** Write a new node and put it in a bin. */
    method AddNode(n: nat, node: Node, spare: bool)
      requires allocBin != freeBin && allocBin.Linked(pool.nodes) && freeBin.Linked(pool.nodes)
      requires n !in allocBin.list && n !in freeBin.list && forall k | k in allocBin.list :: k !in freeBin.list
      modifies pool, allocBin, freeBin
      ensures allocBin.Linked(pool.nodes) && freeBin.Linked(pool.nodes) && SameBodies(old(pool.nodes)[n := node], pool.nodes)
      ensures freeBin.list == old(freeBin.list) + (if spare then [n] else [])
      ensures allocBin.list == old(allocBin.list) + (if spare then [] else [n])
    {
      WriteNode(n, node);
      PushTo(n, spare);
    }

    /** Take a node out of its bin and set its flag. */
    method Withdraw(n: nat, free: bool)
      requires allocBin != freeBin && allocBin.Linked(pool.nodes) && freeBin.Linked(pool.nodes)
      requires forall k | k in allocBin.list :: k !in freeBin.list
      requires n in pool.nodes && (if free then n in allocBin.list else n in freeBin.list)
      modifies pool, allocBin, freeBin
      ensures allocBin.Linked(pool.nodes) && freeBin.Linked(pool.nodes)
      ensures SameBodies(old(pool.nodes)[n := old(pool.nodes)[n].(free := free)], pool.nodes)
      ensures allocBin.list == if free then Without(old(allocBin.list), n) else old(allocBin.list)
      ensures freeBin.list == if free then old(freeBin.list) else Without(old(freeBin.list), n)
    {
      SetFree(n, free);
      RemoveFrom(n, !free);
    }

    /** Move a node from one bin to the other and set its flag. */
    method Refile(n: nat, free: bool)
      requires allocBin != freeBin && allocBin.Linked(pool.nodes) && freeBin.Linked(pool.nodes)
      requires forall k | k in allocBin.list :: k !in freeBin.list
      requires n in pool.nodes && (if free then n in allocBin.list else n in freeBin.list)
      modifies pool, allocBin, freeBin
      ensures allocBin.Linked(pool.nodes) && freeBin.Linked(pool.nodes)
      ensures SameBodies(old(pool.nodes)[n := old(pool.nodes)[n].(free := free)], pool.nodes)
      ensures allocBin.list == if free then Without(old(allocBin.list), n) else old(allocBin.list) + [n]
      ensures freeBin.list == if free then old(freeBin.list) + [n] else Without(old(freeBin.list), n)
    {
      WithoutHas(if free then allocBin.list else freeBin.list, n);
      Withdraw(n, free);
      PushTo(n, free);
    }

    /** Hand out a free node as it is. */
    method TakeWhole(n: nat, ghost i: nat)
      requires Valid() && n in freeBin.list && i < |freeBin.list| && freeBin.list[i] == n
      modifies pool, allocBin, freeBin
      ensures Valid() && allocBin.list == old(allocBin.list) + [n] && freeBin.list == Without(old(freeBin.list), n)
      ensures Blocks() == old(Blocks())[n := old(pool.nodes)[n].size]
      ensures Snap() == Whole(old(Snap()), i)
    {
      ghost var nodes, live, free := pool.nodes, allocBin.list, freeBin.list;
      Refile(n, false);
      OneFlag(nodes, pool.nodes, tiles, n, false);
      TilesSame(nodes, pool.nodes, tiles, head);
      BinnedMove(nodes, pool.nodes, tiles, live, free, n);
      SparesAt(nodes, free, i);
      SparesWithout(nodes, pool.nodes, free, i);
    }

    /** Set or clear the FREE flag of a node; links do not change. */
    method SetFree(n: nat, free: bool)
      requires allocBin.Linked(pool.nodes) && freeBin.Linked(pool.nodes) && n in pool.nodes
      modifies pool
      ensures allocBin.Linked(pool.nodes) && freeBin.Linked(pool.nodes)
      ensures pool.nodes == old(pool.nodes)[n := old(pool.nodes)[n].(free := free)]
    {
      ghost var nodes := pool.nodes;
      pool.nodes := pool.nodes[n := pool.nodes[n].(free := free)];
      ChainSame(nodes, pool.nodes, allocBin.list, allocBin.head, allocBin.tail);
      ChainSame(nodes, pool.nodes, freeBin.list, freeBin.head, freeBin.tail);
    }

    /** Cut a free node in two: the first part is handed out, the rest is free. */
    method TakePart(n: nat, data: nat, ghost i: nat)
      requires Valid() && n in freeBin.list && i < |freeBin.list| && freeBin.list[i] == n && data % 16 == 0 && pool.nodes[n].size >= data + HEADER
      requires i < |Snap().spare| && Snap().spare[i] == Spare(n, pool.nodes[n].size)
      modifies this`tiles, pool, allocBin, freeBin
      ensures Valid() && Snap() == CutOff(old(Snap()), i, data)
    {
      var cut := n + HEADER + data;
      ghost var rest := pool.nodes[n].size - data - HEADER;
      ghost var goal := CutOff(Snap(), i, data);
      assert goal == Snap().(blocks := Blocks()[n := data], spare := Drop(Snap().spare, i) + [Spare(cut, rest)]);
      ghost var t := CutTiles(n, data, cut, i, rest);
      tiles := t;
      assert Snap() == goal;
    }

    /** The nodes and bins after the cut, and the tiles they make. */
    method CutTiles(n: nat, data: nat, cut: nat, ghost i: nat, ghost rest: nat) returns (ghost t: seq<nat>)
      requires Valid() && n in freeBin.list && data % 16 == 0 && pool.nodes[n].size == rest + data + HEADER && cut == n + HEADER + data
      requires i < |freeBin.list| && freeBin.list[i] == n
      modifies pool, allocBin, freeBin
      ensures allocBin.Linked(pool.nodes) && freeBin.Linked(pool.nodes) && freeBin.list == Without(old(freeBin.list), n) + [cut]
      ensures Tiled(pool.nodes, t, head) && Binned(pool.nodes, t, allocBin.list, freeBin.list)
      ensures BlocksOf(pool.nodes, allocBin.list) == old(Blocks())[n := data]
      ensures SparesOf(pool.nodes, freeBin.list) == Drop(SparesOf(old(pool.nodes), old(freeBin.list)), i) + [Spare(cut, rest)]
    {
      ghost var nodes, live, spare := pool.nodes, allocBin.list, freeBin.list;
      ghost var j :| 0 <= j < |tiles| && tiles[j] == n;
      t := tiles[..j + 1] + [cut] + tiles[j + 1..];
      CutIsNew(n, cut);
      CutNode(n, data, cut);
      CutValue(nodes, pool.nodes, tiles, head, live, spare, n, data, cut, i, j, t, rest);
    }

    /** The pointer work of the cut. */
    method CutNode(n: nat, data: nat, cut: nat)
      requires allocBin != freeBin && allocBin.Linked(pool.nodes) && freeBin.Linked(pool.nodes)
      requires forall k | k in allocBin.list :: k !in freeBin.list
      requires n in freeBin.list && n in pool.nodes && pool.nodes[n].size >= data + HEADER
      requires cut !in allocBin.list && cut !in freeBin.list && cut != n
      modifies pool, allocBin, freeBin
      ensures allocBin.Linked(pool.nodes) && freeBin.Linked(pool.nodes)
      ensures allocBin.list == old(allocBin.list) + [n] && freeBin.list == Without(old(freeBin.list), n) + [cut]
      ensures var nodes := old(pool.nodes);
        SameBodies(nodes[cut := Made(nodes[n].size - data - HEADER).(free := true)][n := Made(data).(resizeable := true)], pool.nodes)
    {
      WithoutHas(freeBin.list, n);
      RemoveFrom(n, true);
      WriteNode(cut, Made(pool.nodes[n].size - data - HEADER));
      FileParts(n, data, cut);
    }

    /** The second half of the cut: the parts go to their bins. */
    method FileParts(n: nat, data: nat, cut: nat)
      requires allocBin != freeBin && allocBin.Linked(pool.nodes) && freeBin.Linked(pool.nodes)
      requires forall k | k in allocBin.list :: k !in freeBin.list
      requires n !in allocBin.list && n !in freeBin.list && n in pool.nodes
      requires cut !in allocBin.list && cut !in freeBin.list && cut != n && cut in pool.nodes
      modifies pool, allocBin, freeBin
      ensures allocBin.Linked(pool.nodes) && freeBin.Linked(pool.nodes)
      ensures allocBin.list == old(allocBin.list) + [n] && freeBin.list == old(freeBin.list) + [cut]
      ensures var nodes := old(pool.nodes);
        SameBodies(nodes[cut := nodes[cut].(free := true)][n := Made(data).(resizeable := true)], pool.nodes)
    {
      AddNode(n, Made(data).(resizeable := true), false);
      FreeCut(cut);
    }

    method FreeCut(cut: nat)
      requires allocBin != freeBin && allocBin.Linked(pool.nodes) && freeBin.Linked(pool.nodes)
      requires forall k | k in allocBin.list :: k !in freeBin.list
      requires cut !in allocBin.list && cut !in freeBin.list && cut in pool.nodes
      modifies pool, allocBin, freeBin
      ensures allocBin.Linked(pool.nodes) && freeBin.Linked(pool.nodes)
      ensures allocBin.list == old(allocBin.list) && freeBin.list == old(freeBin.list) + [cut]
      ensures SameBodies(old(pool.nodes)[cut := old(pool.nodes)[cut].(free := true)], pool.nodes)
    {
      SetFree(cut, true);
      PushTo(cut, true);
    }

    lemma CutIsNew(n: nat, cut: nat)
      requires Valid() && n in tiles && n < cut < End(pool.nodes, n)
      ensures cut !in tiles
    {
      TilesUnique(pool.nodes, tiles, head);
      if cut in tiles { TilesApart(pool.nodes, tiles, head, n, cut); }
    }

    /**
     malloc, sizes computed in 32 bits. The result is the offset of the data. `torn` reports that headers
     were written which fit no tiling: in the bump region when the size of the node wraps to 0, which
     leaves the node above head, or when a free node is cut that is too small. The model does not go on
     after the latter.
     */
    method Malloc(req: nat) returns (p: Option<nat>, torn: bool)
      requires Valid() && req < U32
      modifies this`head, this`size, this`tiles, pool, allocBin, freeBin
      ensures torn <==> Tears(old(Snap()), req)
      ensures !torn ==> Valid() && head + size == old(head + size) && Answer(p, Snap()) == MallocOf(old(Snap()), req)
      ensures !torn && req > 0 ==> Granted(old(Snap()), Snap(), p, AlignedSize(req))
      ensures torn && req > 0xFFFF_FFE0 ==>
        && p == Some(old(head) + HEADER) && head == old(head) && allocBin.list == old(allocBin.list) + [head]
        && forall t :: !(Tiled(pool.nodes, t, head) && head in t)
    {
      ghost var s := Snap();
      SnapSound();
      p, torn := Serve(req);
      if !torn && req > 0 { MallocTold(s, req); }
    }

    /** The work of malloc. */
    method Serve(req: nat) returns (p: Option<nat>, torn: bool)
      requires Valid() && req < U32
      modifies this`head, this`size, this`tiles, pool, allocBin, freeBin
      ensures torn <==> Tears(old(Snap()), req)
      ensures !torn ==> Valid() && head + size == old(head + size) && Answer(p, Snap()) == MallocOf(old(Snap()), req)
      ensures torn && req > 0xFFFF_FFE0 ==>
        && p == Some(old(head) + HEADER) && head == old(head) && allocBin.list == old(allocBin.list) + [head]
        && forall t :: !(Tiled(pool.nodes, t, head) && head in t)
    {
      p, torn := None, false;
      if req == 0 { return; }
      var data := AlignedSize(req);
      ghost var goal, tears := MallocOf(Snap(), req), Tears(Snap(), req);
      MallocCase(Snap(), req, data);
      if (HEADER + data) % U32 <= size {
        p := Some(head + HEADER);
        torn := TakeTop(data);
        assert torn == tears && (!torn ==> Answer(p, Snap()) == goal);
      } else {
        p, torn := Recycle(data);
        assert torn == tears && (!torn ==> Answer(p, Snap()) == goal);
      }
    }

    /** The first half of malloc; when the size of the node wraps to 0 the node is made at head, which does not move. */
    method TakeTop(data: nat) returns (torn: bool)
      requires Valid() && data % 16 == 0 && data < U32 && (HEADER + data) % U32 <= size
      modifies this`head, this`size, this`tiles, pool, allocBin, freeBin
      ensures torn <==> HEADER + data >= U32
      ensures !torn ==> Valid() && head + size == old(head + size) && Blocks() == old(Blocks())[old(head) := data]
      ensures !torn ==> HEADER + data <= old(size) && Snap() == Bumped(old(Snap()), data)
      ensures torn ==>
        && head == old(head) && allocBin.list == old(allocBin.list) + [head]
        && forall t :: !(Tiled(pool.nodes, t, head) && head in t)
    {
      if HEADER + data < U32 {
        Extend(data, false);
        return false;
      }
      AllBelow(head);
      AddNode(head, Made(data), false);
      forall t | Tiled(pool.nodes, t, head) ensures head !in t { TilesUnique(pool.nodes, t, head); }
      torn := true;
    }

    /** The second half of malloc: the first free node that can be cut, else the first that fits. */
    method Recycle(data: nat) returns (p: Option<nat>, torn: bool)
      requires Valid() && data % 16 == 0 && HEADER + data < U32
      modifies this`tiles, pool, allocBin, freeBin
      ensures torn <==> HEADER + data + MIN_NODE_SIZE >= U32 && old(freeBin.list) != []
      ensures !torn ==> Valid() && Answer(p, Snap()) == RecycleOf(old(Snap()), data)
    {
      var found, part, i := Pick(data);
      if found.None? { return None, false; }
      if part && pool.nodes[found.value].size < data + HEADER { return Some(found.value + HEADER), true; }
      p, torn := Some(found.value + HEADER), false;
      SparesAt(pool.nodes, freeBin.list, i);
      if part {
        TakePart(found.value, data, i);
      } else {
        TakeWhole(found.value, i);
      }
    }

    /** The free node malloc takes, and whether it cuts it; i is the place of the node in the free bin. */
    method Pick(data: nat) returns (found: Option<nat>, part: bool, ghost i: nat)
      requires Valid() && data % 16 == 0 && HEADER + data < U32
      ensures found.Some? ==> found.value in freeBin.list && found.value in pool.nodes
      ensures found.None? ==> RecycleOf(Snap(), data) == Answer(None, Snap()) && (HEADER + data + MIN_NODE_SIZE >= U32 ==> freeBin.list == [])
      ensures HEADER + data + MIN_NODE_SIZE >= U32 && found.Some? ==> freeBin.list != [] && part && pool.nodes[found.value].size < data + HEADER
      ensures HEADER + data + MIN_NODE_SIZE < U32 && found.Some? ==>
        && i < |freeBin.list| && freeBin.list[i] == found.value && (part ==> pool.nodes[found.value].size >= data + HEADER)
        && i < |Snap().spare| && (part ==> Snap().spare[i].size >= data + HEADER)
        && RecycleOf(Snap(), data) == Answer(Some(found.value + HEADER), if part then CutOff(Snap(), i, data) else Whole(Snap(), i))
    {
      SparesFit();
      WrappedNeed(data);
      part, i := true, 0;
      found := freeBin.Find(pool, (data + HEADER + MIN_NODE_SIZE) % U32);
      if found.None? {
        found := freeBin.Find(pool, data);
        part := false;
      }
      i := Placed(pool.nodes, freeBin.list, Snap(), found, part, data);
    }

    lemma WrappedNeed(data: nat)
      requires data % 16 == 0 && HEADER + data < U32
      ensures (data + HEADER + MIN_NODE_SIZE) % U32 == if data + HEADER + MIN_NODE_SIZE >= U32 then 0 else data + HEADER + MIN_NODE_SIZE
    {
    }

    /** Free nodes are smaller than the address space less a header. */
    lemma SparesFit()
      requires Valid()
      ensures forall n | n in freeBin.list :: n in pool.nodes && n + HEADER + pool.nodes[n].size <= head && pool.nodes[n].size < 0xFFFF_FFF0
    {
      TilesUnique(pool.nodes, tiles, head);
      forall n | n in freeBin.list ensures n + HEADER + pool.nodes[n].size <= head { assert n in tiles; }
    }

    /**
     Cutting a free node for a request above 0xFFFFFFD0: the first part gets a size beyond head, and the
     header of the rest lands 16 bytes in front of the node. No tiling has both.
     */
    lemma WrappedCutTears(n: nat, cut: nat, nodes: map<nat, Node>, t: seq<nat>)
      requires Valid() && n in freeBin.list && n in pool.nodes && cut == (n + 0xFFFF_FFF0) % U32
      requires n in nodes && nodes[n].size == 0xFFFF_FFE0
      requires cut in nodes && nodes[cut].size == (pool.nodes[n].size - 0xFFFF_FFE0 - HEADER) % U32
      ensures !(Tiled(nodes, t, head) && n in t && cut in t)
    {
      SparesFit();
      TilesUnique(pool.nodes, tiles, head);
      assert n in tiles;
      if Tiled(nodes, t, head) && n in t && cut in t {
        TilesUnique(nodes, t, head);
        if n >= 16 { TilesApart(nodes, t, head, n, cut); }
        assert false;
      }
    }

    /**
     malloc keeps its promise exactly if no size wraps, or a wrapped one does no harm because there is no
     free node (and, for the last 15 requests, no room for a header).
     */
    lemma ServedExact(req: nat)
      requires Valid() && 0 < req < U32
      ensures Served(Snap(), req) <==>
        || req <= MAX_REQUEST
        || (req <= 0xFFFF_FFE0 && (size >= 0xFFFF_FFF0 || freeBin.list == []))
        || (req > 0xFFFF_FFF0 && size < HEADER && freeBin.list == [])
    {
      SparesFit();
      SnapFacts();
      SnapSound();
      ServedWhen(Snap(), req);
    }

    /** A request of 0xFFFFFFF8 bytes gets a region of none. */
    lemma EmptyRegion()
      requires Valid() && HEADER <= size
      ensures var s := Snap();
        !Tears(s, 0xFFFF_FFF8) && MallocOf(s, 0xFFFF_FFF8) == Answer(Some(head + HEADER), Bumped(s, 0)) && !Served(s, 0xFFFF_FFF8)
    {
      WrappedSizes(0xFFFF_FFF8);
      ServedExact(0xFFFF_FFF8);
    }

    /** The free nodes of the value are those of the bin. */
    lemma SnapFacts()
      requires Valid()
      ensures |Snap().spare| == |freeBin.list|
      ensures forall i | 0 <= i < |freeBin.list| :: Snap().spare[i] == Spare(freeBin.list[i], pool.nodes[freeBin.list[i]].size)
    {
      forall i: nat | i < |freeBin.list| ensures Snap().spare[i] == Spare(freeBin.list[i], pool.nodes[freeBin.list[i]].size) {
        SparesAt(pool.nodes, freeBin.list, i);
      }
    }

    /** Every node, and the start of the bump region, is a multiple of 16. */
    lemma On16()
      requires Valid()
      ensures head % 16 == 0 && forall n | n in Blocks() :: n % 16 == 0
    {
      HeadBy16(pool.nodes, tiles, head);
      forall n | n in Blocks() ensures n % 16 == 0 { assert n in tiles; }
    }

    /**
     malloc_aligned, in a pool that starts at a multiple of 16. Where padding is needed it is taken
     from the bump region, and becomes a free node, before malloc is asked; so the data is aligned as
     requested whenever the bump region holds padding, header and data.
     */
    method MallocAligned(req: nat, align: nat) returns (p: Option<nat>)
      requires Valid() && base % 16 == 0 && req <= MAX_REQUEST && CeilPow2(align) + req < U32
      modifies this`head, this`size, this`tiles, pool, allocBin, freeBin
      ensures Valid() && head + size == old(head + size) && Allocated(p, req, old(Blocks()), Blocks())
      ensures var a := CeilPow2(align);
        a > 16 && req > 0 && PaddingTaken(base, old(head), align) + HEADER + AlignedSize(req) <= old(size) ==>
          p.Some? && (base + p.value) % a == 0
      ensures Answer(p, Snap()) == AlignedOf(old(Snap()), PaddingTaken(base, old(head), align), req)
    {
      var padding := FindPadding(align);
      SnapSound();
      AlignedPromise(base, Snap(), align, padding, req);
      p := MallocPadded(req, padding);
    }

    /** The padding that aligns the data of a node at the start of the bump region. */
    method FindPadding(align: nat) returns (padding: nat)
      requires Valid() && base % 16 == 0
      ensures padding == PaddingTaken(base, head, align) && padding % 16 == 0
    {
      var a := CeilPow2(align);
      On16();
      if a <= 16 { return 0; }
      padding := Padding(base + head + HEADER, a);
      PaddingAt(base, head, align, a, padding, base + (head + padding + HEADER));
    }

    /** malloc_aligned once it knows the padding. */
    method MallocPadded(req: nat, padding: nat) returns (p: Option<nat>)
      requires Valid() && req <= MAX_REQUEST && padding % 16 == 0
      modifies this`head, this`size, this`tiles, pool, allocBin, freeBin
      ensures Valid() && head + size == old(head + size) && Answer(p, Snap()) == AlignedOf(old(Snap()), padding, req)
    {
      if padding == 0 {
        p := MallocHere(req);
      } else if size < padding + req {
        p := None;
      } else {
        p := MallocBehind(req, padding);
      }
    }

    /** The padding is taken from the bump region before malloc is asked. */
    method MallocBehind(req: nat, padding: nat) returns (p: Option<nat>)
      requires Valid() && req <= MAX_REQUEST && padding % 16 == 0 && HEADER <= padding <= size
      modifies this`head, this`size, this`tiles, pool, allocBin, freeBin
      ensures Valid() && head + size == old(head + size) && Answer(p, Snap()) == MallocOf(Padded(old(Snap()), padding), req)
    {
      ghost var goal := MallocOf(Padded(Snap(), padding), req);
      Pad(padding);
      p := MallocHere(req);
      assert Answer(p, Snap()) == goal;
    }

    method Pad(padding: nat)
      requires Valid() && padding % 16 == 0 && HEADER <= padding <= size
      modifies this`head, this`size, this`tiles, pool, allocBin, freeBin
      ensures Valid() && head + size == old(head + size) && Snap() == Padded(old(Snap()), padding)
    {
      var data := padding - HEADER;
      Extend(data, true);
    }

    /** malloc once the padding is in place. */
    method MallocHere(req: nat) returns (p: Option<nat>)
      requires Valid() && req <= MAX_REQUEST
      modifies this`head, this`size, this`tiles, pool, allocBin, freeBin
      ensures Valid() && head + size == old(head + size) && Answer(p, Snap()) == MallocOf(old(Snap()), req)
    {
      var torn;
      p, torn := Malloc(req);
    }

    /** Free nodes, and the bump region, start at multiples of 16 and are no allocated nodes. */
    lemma SnapSound()
      requires Valid()
      ensures Sound(Snap()) && forall n | n in Blocks() :: n < head
    {
      On16();
      AllBelow(head);
      TilesUnique(pool.nodes, tiles, head);
      forall n | n in Blocks() ensures n < head { assert n in tiles; }
      SnapFacts();
      forall x | x in Snap().spare ensures x.at !in Blocks() && x.at % 16 == 0 { assert x.at in freeBin.list && x.at in tiles; }
    }

    /** free, of the data of a node. A node that is free already is left alone. */
    method Free(ptr: nat)
      requires Valid() && ptr >= HEADER && ptr - HEADER in tiles
      modifies this`head, this`size, this`tiles, pool, allocBin, freeBin
      ensures Valid() && head + size == old(head + size)
      ensures Freed(ptr - HEADER, old(Blocks()), Blocks(), old(head), head, old(freeBin.list), freeBin.list)
      ensures Snap() == FreeOf(old(Snap()), ptr - HEADER)
    {
      var n := ptr - HEADER;
      if pool.nodes[n].free { return; }
      if ptr + pool.nodes[n].size != head { FreeInside(n); } else { FreeTop(n); }
    }

    /** A node below others goes to the free bin. */
    method FreeInside(n: nat)
      requires Valid() && n in allocBin.list
      modifies pool, allocBin, freeBin
      ensures Valid() && Blocks() == old(Blocks()) - {n} && freeBin.list == old(freeBin.list) + [n]
      ensures Snap() == old(Snap()).(blocks := old(Blocks()) - {n}, spare := old(Snap()).spare + [Spare(n, old(Blocks())[n])])
    {
      ghost var nodes, live, free := pool.nodes, allocBin.list, freeBin.list;
      Refile(n, true);
      OneFlag(nodes, pool.nodes, tiles, n, true);
      TilesSame(nodes, pool.nodes, tiles, head);
      BinnedFree(nodes, pool.nodes, tiles, live, free, n);
      BlocksWithout(nodes, pool.nodes, live, n);
      SparesMore(nodes, pool.nodes, free, n);
    }

    /** The topmost node goes back to the bump region. */
    method FreeTop(n: nat)
      requires Valid() && n in allocBin.list && End(pool.nodes, n) == head
      modifies this`head, this`size, this`tiles, pool, allocBin, freeBin
      ensures Valid() && Blocks() == old(Blocks()) - {n} && freeBin.list == old(freeBin.list)
      ensures head == n && head + size == old(head + size)
      ensures Snap() == HeapState(n, old(size) + HEADER + old(Blocks())[n], old(Blocks()) - {n}, old(Snap()).spare)
    {
      var freed := DropTop(n);
      head, size, tiles := n, size + freed, tiles[..|tiles| - 1];
    }

    /** The topmost node leaves its bin. */
    method DropTop(n: nat) returns (freed: nat)
      requires Valid() && n in allocBin.list && End(pool.nodes, n) == head
      modifies pool, allocBin, freeBin
      ensures n + freed == head && tiles != [] && Tiled(pool.nodes, tiles[..|tiles| - 1], n)
      ensures allocBin.Linked(pool.nodes) && freeBin.Linked(pool.nodes)
      ensures Binned(pool.nodes, tiles[..|tiles| - 1], allocBin.list, freeBin.list)
      ensures BlocksOf(pool.nodes, allocBin.list) == old(Blocks()) - {n} && freeBin.list == old(freeBin.list)
      ensures freed == HEADER + old(Blocks())[n] && (forall k | k in freeBin.list :: k in pool.nodes) && SparesOf(pool.nodes, freeBin.list) == old(Snap()).spare
    {
      ghost var nodes, live, free := pool.nodes, allocBin.list, freeBin.list;
      Withdraw(n, true);
      TopGone(nodes, pool.nodes, tiles, head, live, free, n);
      SparesSame(nodes, pool.nodes, free);
      freed := HEADER + pool.nodes[n].size;
    }
  }

  /** What a successful allocation of at least req bytes changes. */
  ghost predicate Allocated(p: Option<nat>, req: nat, before: map<nat, nat>, after: map<nat, nat>) {
    match p
    case None => after == before
    case Some(d) =>
      && d >= HEADER && d % 16 == 0 && d - HEADER !in before
      && d - HEADER in after && after[d - HEADER] >= req && after - {d - HEADER} == before
  }

  /** What free does to the allocated nodes, the top of the heap and the free bin. */
  ghost predicate Freed(n: nat, before: map<nat, nat>, after: map<nat, nat>, head: nat, head': nat, spare: seq<nat>, spare': seq<nat>) {
    if n !in before then after == before && head' == head && spare' == spare
    else
      && after == before - {n}
      && (if n + HEADER + before[n] == head then head' == n && spare' == spare else head' == head && spare' == spare + [n])
  }

  /** After a cut, the first part is live and the rest free. */
  lemma BinnedSplit(a: map<nat, Node>, b: map<nat, Node>, tiles: seq<nat>, t: seq<nat>, live: seq<nat>, spare: seq<nat>, i: nat, cut: nat)
    requires Binned(a, tiles, live, spare) && i < |tiles| && tiles[i] in spare && cut !in tiles
    requires t == tiles[..i + 1] + [cut] + tiles[i + 1..]
    requires cut in b && b[cut].free && tiles[i] in b && !b[tiles[i]].free
    requires forall k | k in tiles && k != tiles[i] :: k in a && k in b && b[k].free == a[k].free
    ensures Binned(b, t, live + [tiles[i]], Without(spare, tiles[i]) + [cut])
  {
    WithoutHas(spare, tiles[i]);
    Joined(live, tiles[i]);
    Joined(Without(spare, tiles[i]), cut);
    CutHas(tiles, t, i, cut);
  }

  lemma CutHas(tiles: seq<nat>, t: seq<nat>, i: nat, cut: nat)
    requires i < |tiles| && t == tiles[..i + 1] + [cut] + tiles[i + 1..]
    ensures forall k :: k in t <==> k in tiles || k == cut
  {
    assert tiles == tiles[..i + 1] + tiles[i + 1..];
  }
}
