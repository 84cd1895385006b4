/**
 The abstract value of the buddy allocator: a binary tree whose leaves carry the page flags.
 Interior flags are not stored here; they are the OR of the leaves below (`Summary`).
 A block is named by its path from the root, `false` for the lower half.
 */
module PageTree {
  import opened Bits
  import opened Options

  // A flag byte is kept as its bit fields: bits 0-2 status, bits 3-6 mapping. Bit 7, which only
  // tells a right child from a left one, is the field `right` of a node.
  const PNODE_FREE: bv3 := 1
  const PNODE_USED: bv3 := 2
  const PNODE_BLOCKED: bv3 := 4
  const PNODE_ACPI: bv3 := 0
  const PNODE_UNMAPPED: bv4 := 1
  const PNODE_ON_RAM: bv4 := 2
  const PNODE_IO_MAPPED: bv4 := 4
  const PNODE_BLK_MAPPED: bv4 := 8

  datatype Flags = Flags(status: bv3, mapping: bv4)

  const FREE_RAM := Flags(PNODE_FREE, PNODE_ON_RAM)
  const FREE_UNMAPPED := Flags(PNODE_FREE, PNODE_UNMAPPED)

  /** Order of the root: 2^20 pages of 4 KiB. */
  const MAX_ORDER: nat := 20
  const PAGES: nat := 0x10_0000

  function Or(a: Flags, b: Flags): Flags {
    Flags(a.status | b.status, a.mapping | b.mapping)
  }

  /** ba_match_flags: the status bits intersect and the mapping bits intersect. */
  predicate Match(f: Flags, want: Flags) {
    f.status & want.status != 0 && f.mapping & want.mapping != 0
  }

  /**
   pnode_validate_flags_update. The side bit of the target takes part in the first comparison:
   the new flags never carry it, so a right child never counts as unchanged.
   */
  predicate Permits(target: Flags, right: bool, flag: Flags, bypass: bool) {
    var upgrading := target.status > flag.status;
    var remapping := target.mapping != flag.mapping;
    if target == flag && !right then true
    else if target.status == PNODE_USED && remapping then upgrading && bypass
    else if bypass then true
    else if target.status == PNODE_BLOCKED then remapping
    else true
  }

  /** The side bit decides only whether a blocked node that has the new flags already is left alone or refused. */
  lemma SideBitMatters(target: Flags, flag: Flags, bypass: bool)
    ensures Permits(target, false, flag, bypass) != Permits(target, true, flag, bypass)
            <==> target == flag && target.status == PNODE_BLOCKED && !bypass
  {
  }

  /** For flags other than FREE, a node whose flags may not change is not FREE, whatever its side. */
  lemma PermitsEitherSide(target: Flags, right: bool, flag: Flags, bypass: bool)
    ensures Permits(target, right, flag, bypass) ==> Permits(target, true, flag, bypass) || target == flag
    ensures !Permits(target, right, flag, bypass) ==> !Permits(target, true, flag, bypass) && target.status != PNODE_FREE
  {
  }

  /** A FREE node may be given any flags. */
  lemma FreePermits(target: Flags, right: bool, flag: Flags, bypass: bool)
    requires target.status & PNODE_FREE != 0
    ensures Permits(target, right, flag, bypass) && target.status != PNODE_BLOCKED && target.status != PNODE_USED
  {
  }

  /**
   The verdict for each kind of page. A USED page may not change its mapping, unless it is freed with bypass;
   a BLOCKED page may only change its mapping, or be left as it is on the left side, unless there is bypass;
   any other page may be given any flags.
   */
  lemma PermitsExact(target: Flags, right: bool, flag: Flags, bypass: bool)
    ensures target.status == PNODE_USED ==>
      (Permits(target, right, flag, bypass) <==> flag.mapping == target.mapping || (bypass && flag.status in {PNODE_ACPI, PNODE_FREE}))
    ensures target.status == PNODE_BLOCKED ==>
      (Permits(target, right, flag, bypass) <==> flag.mapping != target.mapping || bypass || (flag.status == PNODE_BLOCKED && !right))
    ensures target.status != PNODE_USED && target.status != PNODE_BLOCKED ==> Permits(target, right, flag, bypass)
  {
  }

  type Path = seq<bool>

  datatype Tree = Leaf(flags: Flags) | Branch(left: Tree, right: Tree)

  function Child(t: Tree, b: bool): Tree
    requires t.Branch?
  {
    if b then t.right else t.left
  }

  function WithChild(t: Tree, b: bool, c: Tree): Tree
    requires t.Branch?
  {
    if b then Branch(t.left, c) else Branch(c, t.right)
  }

  function Summary(t: Tree): Flags {
    match t
    case Leaf(f) => f
    case Branch(l, r) => Or(Summary(l), Summary(r))
  }

  predicate Fits(t: Tree, k: nat) {
    t.Leaf? || (k > 0 && Fits(t.left, k - 1) && Fits(t.right, k - 1))
  }

  predicate Has(t: Tree, p: Path) {
    p == [] || (t.Branch? && Has(Child(t, p[0]), p[1..]))
  }

  function At(t: Tree, p: Path): Tree
    requires Has(t, p)
  {
    if p == [] then t else At(Child(t, p[0]), p[1..])
  }

  /** p names a leaf or a block inside a leaf: it is not the name of an interior node. */
  predicate Covers(t: Tree, p: Path) {
    t.Leaf? || (p != [] && Covers(Child(t, p[0]), p[1..]))
  }

  /** Depth of the leaf that contains the block p. */
  function LeafDepth(t: Tree, p: Path): (d: nat)
    requires Covers(t, p)
    ensures d <= |p|
  {
    if t.Leaf? then 0 else 1 + LeafDepth(Child(t, p[0]), p[1..])
  }

  /** Flags of the leaf that contains the block p. */
  function Along(t: Tree, p: Path): Flags
    requires Covers(t, p)
  {
    if t.Leaf? then t.flags else Along(Child(t, p[0]), p[1..])
  }

  /** A leaf covers itself. */
  lemma {:induction false} LeafAlong(t: Tree, p: Path)
    requires Has(t, p) && At(t, p).Leaf?
    ensures Covers(t, p) && Along(t, p) == At(t, p).flags && LeafDepth(t, p) == |p|
  {
    if p != [] { LeafAlong(Child(t, p[0]), p[1..]); }
  }

  lemma {:induction false} AtSnoc(t: Tree, p: Path, b: bool)
    requires Has(t, p) && At(t, p).Branch?
    ensures Has(t, p + [b]) && At(t, p + [b]) == Child(At(t, p), b)
  {
    if p == [] {
      assert (p + [b])[1..] == [];
    } else {
      assert (p + [b])[1..] == p[1..] + [b];
      AtSnoc(Child(t, p[0]), p[1..], b);
    }
  }

  // ---------- the operations ----------

  function Split(t: Tree): Tree {
    if t.Leaf? then Branch(t, t) else t
  }

  /** Split leaves so that p becomes a node. */
  function Carve(t: Tree, p: Path): Tree {
    if p == [] then t
    else WithChild(Split(t), p[0], Carve(Child(Split(t), p[0]), p[1..]))
  }

  predicate Mergeable(t: Tree) {
    t.Branch? && t.left.Leaf? && t.right.Leaf? && t.left.flags == t.right.flags && t.left.flags.status == PNODE_FREE
  }

  /** One step of pnode_repair_tree at one interior node. */
  function Rejoin(t: Tree): Tree {
    if Mergeable(t) then t.left else t
  }

  /** Replace the subtree at p. */
  function Put(t: Tree, p: Path, s: Tree): Tree
    requires Has(t, p)
  {
    if p == [] then s else WithChild(t, p[0], Put(Child(t, p[0]), p[1..], s))
  }

  /** pnode_repair_tree started at p. */
  function Repair(t: Tree, p: Path): Tree
    requires Has(t, p)
  {
    if p == [] then t else Rejoin(WithChild(t, p[0], Repair(Child(t, p[0]), p[1..])))
  }

  /** Carve out block p, give it flags f, merge what became mergeable. */
  function Mark(t: Tree, p: Path, f: Flags): Tree {
    if p == [] then Leaf(f)
    else Rejoin(WithChild(Split(t), p[0], Mark(Child(Split(t), p[0]), p[1..], f)))
  }

  /** No two sibling leaves are both FREE with equal flags. */
  predicate Normal(t: Tree) {
    t.Leaf? || (!Mergeable(t) && Normal(t.left) && Normal(t.right))
  }

  /** The depth-first search of ba_search with PNODE_SEARCH_MODIFY, as a function on values. */
  function Find(t: Tree, k: nat, m: nat, want: Flags, rev: bool): Option<Path>
    requires Fits(t, k)
  {
    if !Match(Summary(t), want) then None
    else match t
      case Leaf(f) => if k >= m then Some(seq(k - m, _ => rev)) else None
      case Branch(l, r) =>
        match Find(Child(t, rev), k - 1, m, want, rev)
        case Some(p) => Some([rev] + p)
        case None =>
          match Find(Child(t, !rev), k - 1, m, want, rev)
          case Some(p) => Some([!rev] + p)
          case None => None
  }

  // ---------- addresses and the page view ----------

  /** First page of block p in a tree of order k. */
  function Addr(p: Path, k: nat): nat
    requires |p| <= k
  {
    if p == [] then 0 else (if p[0] then Pow2(k - 1) else 0) + Addr(p[1..], k - 1)
  }

  /** The first page after block p. */
  function EndOf(p: Path, k: nat): nat
    requires |p| <= k
  {
    Addr(p, k) + Pow2(k - |p|)
  }

  predicate InBlock(p: Path, k: nat, x: nat)
    requires |p| <= k
  {
    Addr(p, k) <= x < Addr(p, k) + Pow2(k - |p|)
  }

  /** Flags of the leaf that holds page x. */
  function FlagsAt(t: Tree, k: nat, x: nat): Flags
    requires Fits(t, k)
  {
    match t
    case Leaf(f) => f
    case Branch(l, r) => if x < Pow2(k - 1) then FlagsAt(l, k - 1, x) else FlagsAt(r, k - 1, x - Pow2(k - 1))
  }

  lemma {:induction false} AddrBounds(p: Path, k: nat)
    requires |p| <= k
    ensures Addr(p, k) + Pow2(k - |p|) <= Pow2(k)
    ensures Addr(p, k) % Pow2(k - |p|) == 0
  {
    if p == [] {
    } else {
      AddrBounds(p[1..], k - 1);
      Pow2Divides(k - |p|, k - 1);
      SumMod(Pow2(k - 1), Addr(p[1..], k - 1), Pow2(k - |p|));
    }
  }

  /** The block of order m that ba_find_node reaches for an address, from a node of order k. */
  function PathOf(a: nat, k: nat, m: nat): (p: Path)
    ensures |p| == if k <= m then 0 else k - m
  {
    if k <= m then [] else [Bit(a, k - 1)] + PathOf(a, k - 1, m)
  }

  lemma {:induction false} PathOfSnoc(a: nat, k: nat, m: nat)
    requires m < k
    ensures PathOf(a, k, m) == PathOf(a, k, m + 1) + [Bit(a, m)]
  {
    if k > m + 1 { PathOfSnoc(a, k - 1, m); }
  }

  lemma {:induction false} PathOfPrefix(a: nat, k: nat, m: nat, n: nat)
    requires n < m <= k
    ensures PathOf(a, k, m) <= PathOf(a, k, n) && PathOf(a, k, m) != PathOf(a, k, n)
  {
    PathOfSnoc(a, k, m - 1);
    if n < m - 1 { PathOfPrefix(a, k, m - 1, n); }
  }

  /** Above a node there are interior nodes only. */
  lemma {:induction false} HasPrefix(t: Tree, p: Path, q: Path)
    requires Has(t, q) && p <= q && p != q
    ensures Has(t, p) && At(t, p).Branch?
  {
    if p != [] { HasPrefix(Child(t, p[0]), p[1..], q[1..]); }
  }

  /** Bits above the root order do not matter: the block holds page a mod 2^k. */
  lemma {:induction false} PathOfHolds(a: nat, k: nat, m: nat)
    requires m <= k
    ensures Addr(PathOf(a, k, m), k) == a % Pow2(k) - a % Pow2(m)
    ensures a % Pow2(m) < Pow2(m)
  {
    if m < k {
      var h := Pow2(k - 1);
      PathOfHolds(a, k - 1, m);
      BitIsDivision(a, k - 1);
      HalfMod(a, h);
    }
  }

  lemma HalfMod(a: nat, h: nat)
    requires h > 0
    ensures a % (2 * h) == a % h + (if (a / h) % 2 == 1 then h else 0)
  {
    var q := a / h;
    var b := if q % 2 == 1 then 1 else 0;
    assert a == q * h + a % h;
    assert q == 2 * (q / 2) + b;
    assert q * h == (q / 2) * (2 * h) + b * h;
    DivModUnique(a, q / 2, a % h + b * h, 2 * h);
  }

  /** The address of a block, below the upper bits c, in terms of the half it lies in. */
  lemma UpperHalf(p: Path, c: nat, k: nat, x: nat)
    requires p != [] && |p| <= k && x == c * Pow2(k) + Addr(p, k)
    ensures x == (2 * c + if p[0] then 1 else 0) * Pow2(k - 1) + Addr(p[1..], k - 1)
  {
    var h := Pow2(k - 1);
    assert (2 * c + 1) * h == c * (2 * h) + h;
    assert (2 * c) * h == c * (2 * h);
  }

  lemma UpperBit(p: Path, c: nat, k: nat, x: nat, q: nat)
    requires p != [] && |p| <= k && x == c * Pow2(k) + Addr(p, k) && q == 2 * c + if p[0] then 1 else 0
    ensures (Bit(x, k - 1) <==> p[0]) && x == q * Pow2(k - 1) + Addr(p[1..], k - 1)
  {
    UpperHalf(p, c, k, x);
    AddrBounds(p[1..], k - 1);
    BitOfParts(x, q, Addr(p[1..], k - 1), k - 1);
  }

  /** A path is recovered from the address and order of its block. */
  lemma {:induction false} PathOfAddr(p: Path, c: nat, k: nat, m: nat, x: nat)
    requires |p| + m == k && x == c * Pow2(k) + Addr(p, k)
    ensures PathOf(x, k, m) == p
  {
    if p != [] {
      var q := 2 * c + if p[0] then 1 else 0;
      UpperBit(p, c, k, x, q);
      PathOfAddr(p[1..], q, k - 1, m, x);
      assert p == [p[0]] + p[1..];
    }
  }

  lemma {:induction false} AddrSnoc(p: Path, b: bool, k: nat)
    requires |p| < k
    ensures Addr(p + [b], k) == Addr(p, k) + (if b then Pow2(k - |p| - 1) else 0)
  {
    if p == [] {
      assert (p + [b])[1..] == [];
    } else {
      assert (p + [b])[1..] == p[1..] + [b];
      AddrSnoc(p[1..], b, k - 1);
    }
  }

  /** Page x of a tree of order k, seen from the half it lies in. */
  function InHalf(x: nat, k: nat): nat
    requires k > 0
  {
    if x < Pow2(k - 1) then x else x - Pow2(k - 1)
  }

  /** A block lies in the half its path turns to. */
  lemma BlockHalf(p: Path, k: nat, x: nat)
    requires p != [] && |p| <= k
    ensures InBlock(p, k, x) <==> (p[0] <==> x >= Pow2(k - 1)) && InBlock(p[1..], k - 1, InHalf(x, k))
  {
    AddrBounds(p[1..], k - 1);
  }

  /** Blocks that are not nested do not overlap. */
  lemma {:induction false} BlocksDisjoint(p: Path, q: Path, k: nat, x: nat)
    requires |p| <= k && |q| <= k
    requires !(p <= q) && !(q <= p)
    ensures !(InBlock(p, k, x) && InBlock(q, k, x))
  {
    BlockHalf(p, k, x);
    BlockHalf(q, k, x);
    if p[0] == q[0] {
      assert !(p[1..] <= q[1..]) && !(q[1..] <= p[1..]) by {
        assert p == [p[0]] + p[1..] && q == [q[0]] + q[1..];
      }
      BlocksDisjoint(p[1..], q[1..], k - 1, InHalf(x, k));
    }
  }

  lemma {:induction false} FlagsAtLeaf(t: Tree, k: nat, p: Path, x: nat)
    requires Fits(t, k) && |p| <= k && Has(t, p) && At(t, p).Leaf? && InBlock(p, k, x)
    ensures FlagsAt(t, k, x) == At(t, p).flags
  {
    if p != [] {
      AddrBounds(p[1..], k - 1);
      FlagsAtLeaf(Child(t, p[0]), k - 1, p[1..], if p[0] then x - Pow2(k - 1) else x);
    }
  }

  /** The pages of a block inside a leaf have the flags of that leaf. */
  lemma {:induction false} AlongPages(t: Tree, k: nat, p: Path, x: nat)
    requires Fits(t, k) && |p| <= k && Covers(t, p) && InBlock(p, k, x)
    ensures FlagsAt(t, k, x) == Along(t, p)
  {
    if t.Branch? {
      AddrBounds(p[1..], k - 1);
      AlongPages(Child(t, p[0]), k - 1, p[1..], if p[0] then x - Pow2(k - 1) else x);
    }
  }

  /** Carving changes the shape, not the flags of any page. */
  lemma {:induction false} CarvePages(t: Tree, k: nat, p: Path, x: nat)
    requires Fits(t, k) && |p| <= k && x < Pow2(k)
    ensures Fits(Carve(t, p), k) && FlagsAt(Carve(t, p), k, x) == FlagsAt(t, k, x)
  {
    if p != [] {
      var h := Pow2(k - 1);
      CarvePages(Child(Split(t), p[0]), k - 1, p[1..], if x < h then x else x - h);
    }
  }

  /** What a carved leaf was part of. */
  lemma {:induction false} CarvedLeaf(t: Tree, p: Path)
    requires Has(Carve(t, p), p) && At(Carve(t, p), p).Leaf?
    ensures Covers(t, p) && At(Carve(t, p), p) == Leaf(Along(t, p))
  {
    if p != [] { CarvedLeaf(Child(Split(t), p[0]), p[1..]); }
  }

  lemma {:induction false} CarveNormal(t: Tree, p: Path)
    requires Normal(t) && Covers(t, p) && Along(t, p).status != PNODE_FREE
    ensures Normal(Carve(t, p))
    ensures t.Leaf? && p != [] ==> Carve(t, p).Branch?
    ensures t.Branch? ==> !Mergeable(Carve(t, p))
  {
    if p != [] {
      var c := Child(Split(t), p[0]);
      CarveNormal(c, p[1..]);
      CarveCovers(c, p[1..]);
    }
  }

  /** Marking a leaf that was carved out, or finding it marked already, leaves the tree merged. */
  lemma MarkLeafNormal(t: Tree, p: Path, f: Flags)
    requires Normal(t) && Covers(t, p)
    ensures Normal(Mark(t, p, f))
    ensures Along(t, p).status != PNODE_FREE ==> Normal(Carve(t, p))
  {
    MarkNormal(t, p, f);
    if Along(t, p).status != PNODE_FREE { CarveNormal(t, p); }
  }

  lemma {:induction false} CarveCovers(t: Tree, p: Path)
    requires Covers(t, p)
    ensures Covers(Carve(t, p), p) && Along(Carve(t, p), p) == Along(t, p)
  {
    if p != [] { CarveCovers(Child(Split(t), p[0]), p[1..]); }
  }

  /** Marking a block sets the flags of exactly its pages. */
  lemma {:induction false} MarkPagesOfBlock(t: Tree, k: nat, p: Path, f: Flags, x: nat)
    requires Fits(t, k) && |p| <= k && x < Pow2(k)
    ensures Fits(Mark(t, p, f), k)
    ensures FlagsAt(Mark(t, p, f), k, x) == if InBlock(p, k, x) then f else FlagsAt(t, k, x)
  {
    if p != [] {
      var s, h := Split(t), Pow2(k - 1);
      AddrBounds(p[1..], k - 1);
      var y := if x < h then x else x - h;
      MarkPagesOfBlock(Child(s, p[0]), k - 1, p[1..], f, y);
      assert FlagsAt(s, k, x) == FlagsAt(t, k, x);
    }
  }

  lemma {:induction false} MarkFits(t: Tree, k: nat, p: Path, f: Flags)
    requires Fits(t, k) && |p| <= k
    ensures Fits(Mark(t, p, f), k)
  {
    if p != [] { MarkFits(Child(Split(t), p[0]), k - 1, p[1..], f); }
  }

  /** Whatever the flags, marking a block of a merged tree leaves it merged. */
  lemma {:induction false} MarkNormal(t: Tree, p: Path, f: Flags)
    requires Normal(t)
    ensures Normal(Mark(t, p, f))
  {
    if p != [] { MarkNormal(Child(Split(t), p[0]), p[1..], f); }
  }

  lemma {:induction false} MarkOfCarved(t: Tree, p: Path, f: Flags)
    ensures Mark(Carve(t, p), p, f) == Mark(t, p, f)
    ensures Has(Carve(t, p), p)
  {
    if p != [] { MarkOfCarved(Child(Split(t), p[0]), p[1..], f); }
  }

  lemma {:induction false} CarveSnoc(t: Tree, p: Path, b: bool)
    ensures Has(Carve(t, p), p)
    ensures Carve(t, p + [b]) == Put(Carve(t, p), p, Split(At(Carve(t, p), p)))
  {
    if p == [] {
      assert (p + [b])[1..] == [];
    } else {
      assert (p + [b])[1..] == p[1..] + [b];
      CarveSnoc(Child(Split(t), p[0]), p[1..], b);
    }
  }

  lemma {:induction false} PutSame(t: Tree, p: Path)
    requires Has(t, p)
    ensures Put(t, p, At(t, p)) == t
  {
    if p != [] { PutSame(Child(t, p[0]), p[1..]); }
  }

  lemma {:induction false} CarveNothing(t: Tree, p: Path)
    requires Has(t, p)
    ensures Carve(t, p) == t
  {
    if p != [] { CarveNothing(Child(t, p[0]), p[1..]); }
  }

  lemma {:induction false} AtPut(t: Tree, p: Path, s: Tree)
    requires Has(t, p)
    ensures Has(Put(t, p, s), p) && At(Put(t, p, s), p) == s
  {
    if p != [] { AtPut(Child(t, p[0]), p[1..], s); }
  }

  lemma {:induction false} AtPutOther(t: Tree, p: Path, s: Tree, q: Path)
    requires Has(t, p) && Has(t, q) && !(p <= q) && !(q <= p)
    ensures Has(Put(t, p, s), q) && At(Put(t, p, s), q) == At(t, q)
  {
    if p[0] == q[0] {
      assert p == [p[0]] + p[1..] && q == [q[0]] + q[1..];
      AtPutOther(Child(t, p[0]), p[1..], s, q[1..]);
    }
  }

  lemma {:induction false} MarkIsPutThenRepair(t: Tree, p: Path, f: Flags)
    requires Has(t, p)
    ensures Has(Put(t, p, Leaf(f)), p)
    ensures Mark(t, p, f) == Repair(Put(t, p, Leaf(f)), p)
  {
    if p != [] { MarkIsPutThenRepair(Child(t, p[0]), p[1..], f); }
  }

  /** Freeing undoes allocating: marking a FREE block used and then giving its old flags back. */
  lemma {:induction false} MarkUndone(t: Tree, p: Path, f: Flags)
    requires Normal(t) && Covers(t, p) && Along(t, p).status == PNODE_FREE && f.status != PNODE_FREE
    ensures Covers(Mark(t, p, f), p)
    ensures Mark(Mark(t, p, f), p, Along(t, p)) == t
  {
    if p != [] {
      MarkUndone(Child(Split(t), p[0]), p[1..], f);
      MarkedLeaf(Child(Split(t), p[0]), p[1..], f);
    }
  }

  /** A block marked non-FREE is a leaf of its own afterwards. */
  lemma {:induction false} MarkedLeaf(t: Tree, p: Path, f: Flags)
    requires f.status != PNODE_FREE
    ensures Has(Mark(t, p, f), p) && At(Mark(t, p, f), p) == Leaf(f)
    ensures !Mergeable(Mark(t, p, f)) && (p != [] ==> Mark(t, p, f).Branch?)
  {
    if p != [] { MarkedLeaf(Child(Split(t), p[0]), p[1..], f); }
  }

  /** The buddy of block p once p has been carved out. */
  function Buddy(t: Tree, p: Path): Tree
    requires p != []
  {
    if |p| == 1 then Child(Split(t), !p[0]) else Buddy(Child(Split(t), p[0]), p[1..])
  }

  /**
   Writing flags f to block p makes its node disappear exactly when f is FREE and the buddy is a leaf
   with the same flags. ba_mark_pages goes on using the node.
   */
  lemma {:induction false} MarkedNodeStays(t: Tree, p: Path, f: Flags)
    requires p != []
    ensures Has(Mark(t, p, f), p) <==> !(f.status == PNODE_FREE && Buddy(t, p) == Leaf(f))
  {
    if |p| > 1 {
      MarkedNodeStays(Child(Split(t), p[0]), p[1..], f);
      assert p[1..] != [];
    } else {
      assert p[1..] == [];
    }
  }

  // ---------- search ----------

  /** q is a leaf that the search may carve an order-m block from. */
  predicate Candidate(t: Tree, k: nat, q: Path, m: nat, want: Flags) {
    |q| <= k && Has(t, q) && At(t, q).Leaf? && Match(At(t, q).flags, want) && k - |q| >= m
  }

  lemma {:induction false} SummarySeesLeaf(t: Tree, q: Path, want: Flags)
    requires Has(t, q) && At(t, q).Leaf? && Match(At(t, q).flags, want)
    ensures Match(Summary(t), want)
  {
    if q != [] { SummarySeesLeaf(Child(t, q[0]), q[1..], want); }
  }

  /**
   A found block lies at the extreme end of a matching leaf, and no candidate leaf comes before
   that leaf in the direction of the search.
   */
  lemma {:induction false} FindSound(t: Tree, k: nat, m: nat, want: Flags, rev: bool)
    requires Fits(t, k) && Find(t, k, m, want, rev).Some?
    ensures var p := Find(t, k, m, want, rev).value;
      && m <= k && |p| == k - m && Covers(t, p) && Match(Along(t, p), want)
      && Candidate(t, k, p[..LeafDepth(t, p)], m, want)
      && (forall i | LeafDepth(t, p) <= i < |p| :: p[i] == rev)
  {
    var p := Find(t, k, m, want, rev).value;
    if t.Branch? {
      assert p == [p[0]] + p[1..];
      FindSound(Child(t, p[0]), k - 1, m, want, rev);
      var d := LeafDepth(Child(t, p[0]), p[1..]);
      assert p[..d + 1] == [p[0]] + p[1..][..d];
      assert p[..d + 1][1..] == p[1..][..d];
      forall i | d + 1 <= i < |p| ensures p[i] == rev {
        assert p[i] == p[1..][i - 1];
      }
    } else {
      assert p[..0] == [];
    }
  }

  /** Blocks in different halves are in the order of the halves, others in the order of their tails. */
  lemma LiftOrder(a: Path, q: Path, k: nat, rev: bool)
    requires a != [] && q != [] && |a| <= k && |q| <= k
    requires if a[0] == q[0] then InOrder(a[1..], q[1..], k - 1, rev) else a[0] == rev
    ensures InOrder(a, q, k, rev)
  {
    AddrBounds(a[1..], k - 1);
    AddrBounds(q[1..], k - 1);
  }

  /** Block a starts no later than q; in reverse, no earlier. */
  predicate InOrder(a: Path, q: Path, k: nat, rev: bool)
    requires |a| <= k && |q| <= k
  {
    if rev then Addr(q, k) <= Addr(a, k) else Addr(a, k) <= Addr(q, k)
  }

  lemma {:induction false} FindFirst(t: Tree, k: nat, m: nat, want: Flags, rev: bool, q: Path)
    requires Fits(t, k) && Candidate(t, k, q, m, want)
    ensures Find(t, k, m, want, rev).Some?
    ensures var p := Find(t, k, m, want, rev).value;
      && |p| == k - m && Covers(t, p)
      && InOrder(p[..LeafDepth(t, p)], q, k, rev)
  {
    SummarySeesLeaf(t, q, want);
    if t.Branch? {
      if q[0] == rev || Find(Child(t, rev), k - 1, m, want, rev).None? {
        if q[0] == rev { FindFirst(Child(t, rev), k - 1, m, want, rev, q[1..]); }
        else { FindFirst(Child(t, !rev), k - 1, m, want, rev, q[1..]); }
      }
      FindSound(t, k, m, want, rev);
      var p := Find(t, k, m, want, rev).value;
      var a := p[..LeafDepth(t, p)];
      assert a[1..] == p[1..][..LeafDepth(Child(t, p[0]), p[1..])];
      LiftOrder(a, q, k, rev);
    } else {
      FindSound(t, k, m, want, rev);
      assert Find(t, k, m, want, rev).value[..0] == [];
    }
  }

  /** ba_search: a block is found exactly when some matching leaf is large enough. */
  lemma FindComplete(t: Tree, k: nat, m: nat, want: Flags, rev: bool)
    requires Fits(t, k)
    ensures Find(t, k, m, want, rev).Some? <==> exists q :: Candidate(t, k, q, m, want)
  {
    if Find(t, k, m, want, rev).Some? { FindSound(t, k, m, want, rev); }
    if q :| Candidate(t, k, q, m, want) { FindFirst(t, k, m, want, rev, q); }
  }

  /** A subtree still to be searched, with its position. */
  datatype Item = Item(path: Path, order: nat, tree: Tree)

  predicate ItemsFit(st: seq<Item>) {
    forall i | 0 <= i < |st| :: Fits(st[i].tree, st[i].order)
  }

  /** What searching the subtrees on a stack, last one first, finds. */
  function Pending(st: seq<Item>, m: nat, want: Flags, rev: bool): Option<Path>
    requires ItemsFit(st)
  {
    if st == [] then None
    else
      var it := st[|st| - 1];
      match Find(it.tree, it.order, m, want, rev)
      case Some(q) => Some(it.path + q)
      case None => Pending(st[..|st| - 1], m, want, rev)
  }

  lemma PendingTop(st: seq<Item>, it: Item, m: nat, want: Flags, rev: bool)
    requires ItemsFit(st) && Fits(it.tree, it.order)
    ensures ItemsFit(st + [it])
    ensures Pending(st + [it], m, want, rev) ==
      match Find(it.tree, it.order, m, want, rev) case Some(q) => Some(it.path + q) case None => Pending(st, m, want, rev)
  {
    assert (st + [it])[..|st|] == st;
  }

  /** Replacing the top subtree by its two children, or a splittable leaf by its two halves, finds the same. */
  lemma PendingPush(st: seq<Item>, it: Item, m: nat, want: Flags, rev: bool)
    requires ItemsFit(st) && it.order > 0 && Fits(it.tree, it.order) && Match(Summary(it.tree), want)
    requires it.tree.Leaf? ==> it.order > m
    ensures var a := Item(it.path + [rev], it.order - 1, Child(Split(it.tree), rev));
      var b := Item(it.path + [!rev], it.order - 1, Child(Split(it.tree), !rev));
      && ItemsFit(st + [b] + [a])
      && Pending(st + [b] + [a], m, want, rev) == Pending(st + [it], m, want, rev)
  {
    var a := Item(it.path + [rev], it.order - 1, Child(Split(it.tree), rev));
    var b := Item(it.path + [!rev], it.order - 1, Child(Split(it.tree), !rev));
    PendingTop(st, it, m, want, rev);
    PendingTop(st, b, m, want, rev);
    PendingTop(st + [b], a, m, want, rev);
    forall q: Path ensures it.path + ([rev] + q) == a.path + q && it.path + ([!rev] + q) == b.path + q {}
    if it.tree.Leaf? {
      assert seq(it.order - m, _ => rev) == [rev] + seq(it.order - 1 - m, _ => rev);
    }
  }

  /** Pages still to be searched. */
  function Weight(st: seq<Item>): nat {
    if st == [] then 0 else Pow2(st[|st| - 1].order) + Weight(st[..|st| - 1])
  }

  lemma WeightTop(st: seq<Item>, it: Item)
    ensures Weight(st + [it]) == Weight(st) + Pow2(it.order)
  {
    assert (st + [it])[..|st|] == st;
  }

  /**
   ba_search descends the first-child spine all the way to order 0. Its stack has MAX_ORDER
   slots, and exactly then it writes one slot past the end.
   */
  predicate Spills(t: Tree, k: nat, m: nat, want: Flags, rev: bool)
    requires Fits(t, k)
  {
    k == 0 || (Match(Summary(t), want) && if t.Leaf? then m == 0 else Spills(Child(t, rev), k - 1, m, want, rev))
  }

  /** Handing out the first page of memory, or with REVERSE the last one, always overruns the stack. */
  lemma {:induction false} ExtremePageSpills(t: Tree, k: nat, want: Flags, rev: bool, p: Path)
    requires Fits(t, k) && Find(t, k, 0, want, rev) == Some(p) && |p| == k && forall i | 0 <= i < |p| :: p[i] == rev
    ensures Spills(t, k, 0, want, rev)
  {
    if t.Branch? && k > 0 {
      assert p[0] == rev;
      ExtremePageSpills(Child(t, rev), k - 1, want, rev, p[1..]);
    }
  }

  lemma {:induction false} SummarySeesSubtree(t: Tree, p: Path, want: Flags)
    requires Has(t, p) && Match(Summary(At(t, p)), want)
    ensures Match(Summary(t), want)
  {
    if p != [] { SummarySeesSubtree(Child(t, p[0]), p[1..], want); }
  }

  lemma {:induction false} SummarySeesFlags(t: Tree, k: nat, x: nat, want: Flags)
    requires Fits(t, k) && Match(FlagsAt(t, k, x), want)
    ensures Match(Summary(t), want)
  {
    if t.Branch? {
      var h := Pow2(k - 1);
      if x < h { SummarySeesFlags(t.left, k - 1, x, want); } else { SummarySeesFlags(t.right, k - 1, x - h, want); }
    }
  }

  /** The page a search tries first. */
  function ExtremePage(k: nat, rev: bool): nat {
    if rev then Pow2(k) - 1 else 0
  }

  lemma ExtremeBelow(t: Tree, k: nat, rev: bool)
    requires Fits(t, k) && t.Branch?
    ensures FlagsAt(t, k, ExtremePage(k, rev)) == FlagsAt(Child(t, rev), k - 1, ExtremePage(k - 1, rev))
  {
  }

  /**
   A search overruns the stack exactly when the first two pages of memory (with REVERSE the last two) are
   split apart and their flags together match, or they are not and a single page is asked for whose flags
   match; p is the path to that pair.
   */
  lemma {:induction false} SpillsExact(t: Tree, k: nat, m: nat, want: Flags, rev: bool, p: Path)
    requires Fits(t, k) && |p| + 1 == k && forall i | 0 <= i < |p| :: p[i] == rev
    ensures Spills(t, k, m, want, rev) <==>
      if Has(t, p) && At(t, p).Branch? then Match(Summary(At(t, p)), want)
      else m == 0 && Match(FlagsAt(t, k, ExtremePage(k, rev)), want)
  {
    if t.Branch? && p != [] {
      SpillsExact(Child(t, rev), k - 1, m, want, rev, p[1..]);
      ExtremeBelow(t, k, rev);
      if Has(t, p) && Match(Summary(At(t, p)), want) { SummarySeesSubtree(t, p, want); }
      if Match(FlagsAt(t, k, ExtremePage(k, rev)), want) { SummarySeesFlags(t, k, ExtremePage(k, rev), want); }
    }
  }

  /**
   The kernel runs into this: page 0 is never RAM, so once page 1 is a free page of RAM of its own every
   allocate_pages overruns the stack, whatever it asks for.
   */
  lemma {:induction false} PageOneSpills(t: Tree, k: nat, m: nat, q: Path)
    requires Fits(t, k) && |q| == k > 0 && q[k - 1] && forall i | 0 <= i < k - 1 :: !q[i]
    requires Has(t, q) && At(t, q) == Leaf(FREE_RAM)
    ensures Addr(q, k) == 1 && Spills(t, k, m, FREE_RAM, false)
  {
    SummarySeesLeaf(t, q, FREE_RAM);
    if k > 1 { PageOneSpills(t.left, k - 1, m, q[1..]); }
  }

  /** The two paths part ways: neither block contains the other. */
  ghost predicate Apart(p: Path, q: Path) {
    exists i :: 0 <= i < |p| && i < |q| && p[i] != q[i]
  }

  lemma ApartChild(p: Path, q: Path, b: bool)
    requires Apart(p, q)
    ensures Apart(p + [b], q) && Apart(q, p + [b]) && !(p <= q) && !(q <= p)
  {
    var i :| 0 <= i < |p| && i < |q| && p[i] != q[i];
    assert (p + [b])[i] != q[i] && q[i] != (p + [b])[i];
  }

  /**
   What ba_search keeps true about values: `it` is the node under inspection, `st` the stack, t the
   tree so far, t0 the tree it started from. At most one leaf has been split, the one the search
   will return from.
   */
  ghost predicate Hunting(t0: Tree, m: nat, want: Flags, rev: bool, st: seq<Item>, it: Item, t: Tree) {
    && Fits(t0, MAX_ORDER) && ItemsFit(st) && ItemsFit(st + [it]) && Fits(it.tree, it.order)
    && Find(t0, MAX_ORDER, m, want, rev) == Pending(st + [it], m, want, rev)
    && t == Carve(t0, it.path) && Has(t, it.path) && At(t, it.path) == it.tree
    && (t == t0 || (it.tree.Leaf? && Find(it.tree, it.order, m, want, rev).Some?))
  }

  /** Where the subtrees on the stack lie. */
  ghost predicate Stacked(t0: Tree, st: seq<Item>, it: Item, t: Tree) {
    && |st| + it.order <= MAX_ORDER
    && (forall i | 0 <= i < |st| ::
          && i + st[i].order < MAX_ORDER && Apart(st[i].path, it.path)
          && (t == t0 ==> Has(t0, st[i].path) && At(t0, st[i].path) == st[i].tree))
    && (forall i, j | 0 <= i < j < |st| :: Apart(st[i].path, st[j].path))
  }

  /** On the first-child spine the spill is still to be decided; off it, it is settled. */
  ghost predicate SpillTracked(spill: bool, m: nat, want: Flags, rev: bool, st: seq<Item>, it: Item, spilled: bool)
    requires Fits(it.tree, it.order)
  {
    if |st| + it.order == MAX_ORDER
    then spill == Spills(it.tree, it.order, m, want, rev) && spilled == (|st| == MAX_ORDER)
    else spilled == spill
  }

  lemma HuntStart(t0: Tree, m: nat, want: Flags, rev: bool)
    requires Fits(t0, MAX_ORDER)
    ensures Hunting(t0, m, want, rev, [], Item([], MAX_ORDER, t0), t0)
  {
    var it := Item([], MAX_ORDER, t0);
    PendingTop([], it, m, want, rev);
    CarveNothing(t0, []);
    forall q: Path ensures [] + q == q {}
  }

  /** The lower (false) or upper (true) half of a subtree, split if it was a leaf. */
  function Half(it: Item, b: bool): Item
    requires it.order > 0
  {
    Item(it.path + [b], it.order - 1, Child(Split(it.tree), b))
  }

  /** The tree once the subtree under inspection has been split, if it was a leaf. */
  lemma SplitHere(t0: Tree, it: Item, t: Tree, b: bool)
    requires it.order > 0 && t == Carve(t0, it.path) && Has(t, it.path) && At(t, it.path) == it.tree
    ensures var t1, a := Put(t, it.path, Split(it.tree)), Half(it, b);
      && t1 == Carve(t0, a.path) && Has(t1, a.path) && At(t1, a.path) == a.tree && (it.tree.Branch? ==> t1 == t)
  {
    CarveSnoc(t0, it.path, b);
    AtPut(t, it.path, Split(it.tree));
    AtSnoc(Put(t, it.path, Split(it.tree)), it.path, b);
    if it.tree.Branch? { PutSame(t, it.path); }
  }

  lemma HuntPush(t0: Tree, m: nat, want: Flags, rev: bool, st: seq<Item>, it: Item, t: Tree)
    requires Hunting(t0, m, want, rev, st, it, t)
    requires Match(Summary(it.tree), want) && (it.tree.Leaf? ==> it.order > m)
    ensures it.order > 0
    ensures Hunting(t0, m, want, rev, st + [Half(it, !rev)], Half(it, rev), Put(t, it.path, Split(it.tree)))
    ensures Weight(st + [Half(it, !rev)]) + Pow2(Half(it, rev).order) == Weight(st) + Pow2(it.order)
  {
    PendingPush(st, it, m, want, rev);
    SplitHere(t0, it, t, rev);
    WeightTop(st, Half(it, !rev));
  }

  lemma StackedPush(t0: Tree, st: seq<Item>, it: Item, t: Tree, rev: bool)
    requires Stacked(t0, st, it, t) && it.order > 0 && Has(t, it.path) && At(t, it.path) == it.tree
    requires t == Carve(t0, it.path) && (t == t0 || it.tree.Leaf?)
    ensures Stacked(t0, st + [Half(it, !rev)], Half(it, rev), Put(t, it.path, Split(it.tree)))
  {
    var a, b := Half(it, rev), Half(it, !rev);
    var t' := Put(t, it.path, Split(it.tree));
    AtPut(t, it.path, Split(it.tree));
    AtSnoc(t', it.path, !rev);
    if it.tree.Branch? { PutSame(t, it.path); }
    if t' == t0 { CarveNothing(t0, it.path); }
    var st' := st + [b];
    forall i | 0 <= i < |st|
      ensures Apart(st[i].path, a.path) && Apart(st[i].path, b.path)
    {
      ApartSym(st[i].path, it.path);
      ApartChild(it.path, st[i].path, rev);
      ApartChild(it.path, st[i].path, !rev);
    }
    assert b.path[|it.path|] != a.path[|it.path|];
  }

  lemma HuntPop(t0: Tree, m: nat, want: Flags, rev: bool, st: seq<Item>, it: Item, t: Tree)
    requires Hunting(t0, m, want, rev, st, it, t) && Stacked(t0, st, it, t) && st != []
    requires Find(it.tree, it.order, m, want, rev) == None
    ensures Hunting(t0, m, want, rev, st[..|st| - 1], st[|st| - 1], t)
    ensures Stacked(t0, st[..|st| - 1], st[|st| - 1], t)
    ensures Weight(st[..|st| - 1]) + Pow2(st[|st| - 1].order) == Weight(st)
  {
    var n := |st| - 1;
    PendingTop(st, it, m, want, rev);
    assert st == st[..n] + [st[n]];
    CarveNothing(t0, st[n].path);
    assert (st + [it])[n] == st[n];
  }

  /** Everything ba_search keeps true, as one loop invariant on values. */
  ghost predicate Searching(t0: Tree, m: nat, want: Flags, rev: bool, st: seq<Item>, it: Item, t: Tree, spilled: bool) {
    && Hunting(t0, m, want, rev, st, it, t) && Stacked(t0, st, it, t)
    && SpillTracked(Spills(t0, MAX_ORDER, m, want, rev), m, want, rev, st, it, spilled)
  }

  lemma SearchStart(t0: Tree, m: nat, want: Flags, rev: bool)
    requires Fits(t0, MAX_ORDER)
    ensures Searching(t0, m, want, rev, [], Item([], MAX_ORDER, t0), t0, false)
  {
    HuntStart(t0, m, want, rev);
  }

  lemma SearchDown(t0: Tree, m: nat, want: Flags, rev: bool, st: seq<Item>, it: Item, t: Tree, spilled: bool)
    requires Searching(t0, m, want, rev, st, it, t, spilled)
    requires Match(Summary(it.tree), want) && (it.tree.Leaf? ==> it.order > m)
    ensures it.order > 0 && Has(t, it.path) && |st| < MAX_ORDER
    ensures forall i | 0 <= i < |st| :: Apart(st[i].path, it.path)
    ensures Searching(t0, m, want, rev, st + [Half(it, !rev)], Half(it, rev), Put(t, it.path, Split(it.tree)), spilled || |st| + 1 == MAX_ORDER)
    ensures Weight(st + [Half(it, !rev)]) + Pow2(Half(it, rev).order) == Weight(st) + Pow2(it.order) && Half(it, rev).order < it.order
  {
    HuntPush(t0, m, want, rev, st, it, t);
    StackedPush(t0, st, it, t, rev);
    SpillPush(Spills(t0, MAX_ORDER, m, want, rev), m, want, rev, st, it, spilled);
  }

  /** Going down the first-child spine decides the spill at its end; leaving the spine does not matter. */
  lemma SpillPush(spill: bool, m: nat, want: Flags, rev: bool, st: seq<Item>, it: Item, spilled: bool)
    requires Fits(it.tree, it.order) && it.order > 0 && SpillTracked(spill, m, want, rev, st, it, spilled)
    requires |st| + it.order <= MAX_ORDER && Match(Summary(it.tree), want) && (it.tree.Leaf? ==> it.order > m)
    ensures Fits(Half(it, rev).tree, Half(it, rev).order)
    ensures SpillTracked(spill, m, want, rev, st + [Half(it, !rev)], Half(it, rev), spilled || |st| + 1 == MAX_ORDER)
  {
  }

  lemma SearchUp(t0: Tree, m: nat, want: Flags, rev: bool, st: seq<Item>, it: Item, t: Tree, spilled: bool)
    requires Searching(t0, m, want, rev, st, it, t, spilled)
    requires !Match(Summary(it.tree), want) || (it.tree.Leaf? && it.order < m)
    ensures st == [] ==> Find(t0, MAX_ORDER, m, want, rev) == None && t == t0 && spilled == Spills(t0, MAX_ORDER, m, want, rev)
    ensures st != [] ==>
      && Searching(t0, m, want, rev, st[..|st| - 1], st[|st| - 1], t, spilled)
      && Weight(st[..|st| - 1]) + Pow2(st[|st| - 1].order) == Weight(st)
  {
    PendingTop(st, it, m, want, rev);
    if st != [] { HuntPop(t0, m, want, rev, st, it, t); }
  }

  lemma SearchHit(t0: Tree, m: nat, want: Flags, rev: bool, st: seq<Item>, it: Item, t: Tree, spilled: bool)
    requires Searching(t0, m, want, rev, st, it, t, spilled)
    requires it.tree.Leaf? && Match(it.tree.flags, want) && it.order == m
    ensures Fits(t0, MAX_ORDER) && Find(t0, MAX_ORDER, m, want, rev) == Some(it.path) && t == Carve(t0, it.path)
    ensures spilled == Spills(t0, MAX_ORDER, m, want, rev)
  {
    PendingTop(st, it, m, want, rev);
    assert seq(0, _ => rev) == [];
    assert it.path + [] == it.path;
  }

  lemma ApartSym(p: Path, q: Path)
    requires Apart(p, q)
    ensures Apart(q, p)
  {
    var i :| 0 <= i < |p| && i < |q| && p[i] != q[i];
    assert q[i] != p[i];
  }

  // ---------- undoing a whole set of allocations ----------

  /** The members of s below child b, with b stripped. */
  function Below(s: set<Path>, b: bool): set<Path> {
    set p | p in s && p != [] && p[0] == b :: p[1..]
  }

  lemma BelowMember(s: set<Path>, b: bool, q: Path)
    ensures q in Below(s, b) <==> [b] + q in s
  {
    assert ([b] + q)[1..] == q;
    forall p | p in s && p != [] && p[0] == b ensures p == [b] + p[1..] {}
  }

  lemma BelowInsert(s: set<Path>, p: Path, b: bool)
    requires p != []
    ensures Below(s + {p}, b) == Below(s, b) + (if p[0] == b then {p[1..]} else {})
    ensures p !in s ==> Below(s, p[0]) == Below(s + {p}, p[0]) - {p[1..]}
  {
    assert p == [p[0]] + p[1..];
    forall q ensures q in Below(s, b) <==> [b] + q in s { BelowMember(s, b, q); }
    forall q ensures q in Below(s + {p}, b) <==> [b] + q in s + {p} { BelowMember(s + {p}, b, q); }
    assert p[1..] in Below(s, p[0]) <==> p in s by { BelowMember(s, p[0], p[1..]); }
    if p !in s {
      forall q ensures q in Below(s, p[0]) <==> q in Below(s + {p}, p[0]) - {p[1..]} {
        BelowMember(s, p[0], q);
        BelowMember(s + {p}, p[0], q);
        assert ([p[0]] + q)[1..] == q;
      }
    }
  }

  /** The members of live are exactly USED leaves of t. */
  predicate LiveOk(t: Tree, live: set<Path>) {
    match t
    case Leaf(f) => live == {} || (live == {[]} && f.status == PNODE_USED)
    case Branch(l, r) => [] !in live && LiveOk(l, Below(live, false)) && LiveOk(r, Below(live, true))
  }

  /** What free_pages writes over a USED leaf. */
  function Freed(f: Flags): Flags {
    if f.mapping == PNODE_ON_RAM then FREE_RAM else FREE_UNMAPPED
  }

  /** The tree with every live block given back at once. */
  function Undo(t: Tree, live: set<Path>): Tree {
    match t
    case Leaf(f) => if [] in live then Leaf(Freed(f)) else t
    case Branch(l, r) => Rejoin(Branch(Undo(l, Below(live, false)), Undo(r, Below(live, true))))
  }

  lemma {:induction false} LiveLeaf(t: Tree, live: set<Path>, q: Path)
    requires LiveOk(t, live) && q in live
    ensures Has(t, q) && At(t, q).Leaf? && At(t, q).flags.status == PNODE_USED
  {
    if t.Branch? {
      assert q == [q[0]] + q[1..];
      BelowMember(live, q[0], q[1..]);
      LiveLeaf(Child(t, q[0]), Below(live, q[0]), q[1..]);
    }
  }

  lemma {:induction false} UndoNothing(t: Tree)
    requires Normal(t)
    ensures Undo(t, {}) == t
  {
    if t.Branch? {
      assert Below({}, false) == {} && Below({}, true) == {};
      UndoNothing(t.left);
      UndoNothing(t.right);
    }
  }

  lemma {:induction false} UndoCarvedLeaf(g: Flags, p: Path, f: Flags)
    requires g.status == PNODE_FREE && f.status == PNODE_USED && Freed(f) == g
    ensures LiveOk(Mark(Leaf(g), p, f), {p})
    ensures Undo(Mark(Leaf(g), p, f), {p}) == Leaf(g)
  {
    if p != [] {
      UndoCarvedLeaf(g, p[1..], f);
      MarkedLeaf(Leaf(g), p[1..], f);
      var none: set<Path> := {};
      BelowInsert(none, p, false);
      BelowInsert(none, p, true);
      assert none + {p} == {p};
      assert Below(none, false) == {} && Below(none, true) == {};
      assert Below({p}, p[0]) == {p[1..]} && Below({p}, !p[0]) == {};
    }
  }

  /** Granting a block keeps the undone tree. */
  lemma {:induction false} UndoGrant(t: Tree, live: set<Path>, p: Path, f: Flags)
    requires LiveOk(t, live) && Covers(t, p)
    requires f.status == PNODE_USED && Freed(f) == Along(t, p)
    ensures p !in live
    ensures LiveOk(Mark(t, p, f), live + {p})
    ensures Undo(Mark(t, p, f), live + {p}) == Undo(t, live)
  {
    if t.Leaf? {
      assert live == {};
      assert live + {p} == {p};
      UndoCarvedLeaf(t.flags, p, f);
    } else {
      var b := p[0];
      UndoGrant(Child(t, b), Below(live, b), p[1..], f);
      MarkedLeaf(Child(t, b), p[1..], f);
      BelowInsert(live, p, false);
      BelowInsert(live, p, true);
      BelowMember(live, b, p[1..]);
      assert p == [b] + p[1..];
      assert Below(live, !b) + {} == Below(live, !b);
    }
  }

  /** Giving one live block back keeps the undone tree. */
  lemma {:induction false} UndoFree(t: Tree, live: set<Path>, p: Path)
    requires LiveOk(t, live) && p in live
    ensures Covers(t, p)
    ensures LiveOk(Mark(t, p, Freed(Along(t, p))), live - {p})
    ensures Undo(Mark(t, p, Freed(Along(t, p))), live - {p}) == Undo(t, live)
  {
    if t.Leaf? {
      assert live - {p} == {};
    } else {
      var b := p[0];
      assert p == [b] + p[1..];
      BelowMember(live, b, p[1..]);
      UndoFree(Child(t, b), Below(live, b), p[1..]);
      var rest := live - {p};
      assert rest + {p} == live;
      BelowInsert(rest, p, false);
      BelowInsert(rest, p, true);
      assert Below(rest, !b) + {} == Below(rest, !b);
      var g := Freed(Along(t, p));
      var c := Mark(Child(t, b), p[1..], g);
      var s := WithChild(t, b, c);
      if Mergeable(s) {
        assert Below(rest, false) == {} && Below(rest, true) == {};
        assert rest == {} by {
          if q :| q in rest { assert q == [q[0]] + q[1..]; BelowMember(rest, q[0], q[1..]); }
        }
      }
    }
  }

  /** Page x belongs to a live block. */
  ghost predicate InLive(live: set<Path>, k: nat, x: nat) {
    exists q :: q in live && |q| <= k && InBlock(q, k, x)
  }

  lemma InLiveBelow(live: set<Path>, k: nat, x: nat)
    requires k > 0 && x < Pow2(k) && [] !in live
    ensures var h := Pow2(k - 1);
      InLive(live, k, x) <==> if x < h then InLive(Below(live, false), k - 1, x) else InLive(Below(live, true), k - 1, x - h)
  {
    var h := Pow2(k - 1);
    var b := x >= h;
    var y := if b then x - h else x;
    if q :| q in live && |q| <= k && InBlock(q, k, x) {
      assert q == [q[0]] + q[1..];
      AddrBounds(q[1..], k - 1);
      BelowMember(live, q[0], q[1..]);
      assert q[0] == b && InBlock(q[1..], k - 1, y);
    }
    if q :| q in Below(live, b) && |q| <= k - 1 && InBlock(q, k - 1, y) {
      BelowMember(live, b, q);
      assert ([b] + q)[1..] == q;
      assert InBlock([b] + q, k, x);
    }
  }

  /** Undoing changes exactly the pages of live blocks, which were USED, to what freeing writes. */
  lemma {:induction false} UndoPages(t: Tree, live: set<Path>, k: nat, x: nat)
    requires Fits(t, k) && LiveOk(t, live) && x < Pow2(k)
    ensures Fits(Undo(t, live), k)
    ensures FlagsAt(Undo(t, live), k, x) == if InLive(live, k, x) then Freed(FlagsAt(t, k, x)) else FlagsAt(t, k, x)
    ensures InLive(live, k, x) ==> FlagsAt(t, k, x).status == PNODE_USED
  {
    if t.Leaf? {
      if [] in live { assert InBlock([], k, x); }
    } else {
      InLiveBelow(live, k, x);
      var h := Pow2(k - 1);
      UndoPages(t.left, Below(live, false), k - 1, if x < h then x else 0);
      UndoPages(t.right, Below(live, true), k - 1, if x < h then 0 else x - h);
    }
  }
}
