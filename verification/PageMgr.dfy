/**
 The page manager: allocating, freeing and destroying, over the buddy tree. The value-level
 functions say what one call does to the tree; the run theorems at the end are about them.
 */
module PageMgr {
  import opened Bits
  import opened Options
  import opened PageTree
  import opened Buddy
  import opened Errors

  const X86_PAGE_SIZE: nat := 4096

  /** page_alloc_info_t without its link: byte address and page count. */
  datatype PageInfo = PageInfo(memory: nat, count: nat)

  datatype AllocResult = Granted(info: PageInfo) | Failed(err: Err)

  function Handle(p: Path): PageInfo
    requires |p| <= MAX_ORDER
  {
    PageInfo(Addr(p, MAX_ORDER) * X86_PAGE_SIZE, Pow2(MAX_ORDER - |p|))
  }

  lemma HandleFrame(p: Path)
    requires |p| <= MAX_ORDER
    ensures Handle(p).memory / X86_PAGE_SIZE == Addr(p, MAX_ORDER)
  {
  }

  /** What allocate_pages does to the tree: the block it hands out and the tree afterwards. */
  function GrantRam(t: Tree, n: nat): (r: Option<(Path, Tree)>)
    requires Fits(t, MAX_ORDER) && n > 0
    ensures r.Some? ==> |r.value.0| + ReqOrder(n) == MAX_ORDER
  {
    match Find(t, MAX_ORDER, ReqOrder(n), FREE_RAM, false)
    case None => None
    case Some(p) =>
      FindSound(t, MAX_ORDER, ReqOrder(n), FREE_RAM, false);
      Some((p, Mark(t, p, Along(t, p).(status := PNODE_USED))))
  }

  /** What allocate_mapped_pages does, once its arguments are validated. */
  function GrantMapped(t: Tree, mapping: bv4, n: nat): (r: Option<(Path, Tree)>)
    requires Fits(t, MAX_ORDER) && n > 0
    ensures r.Some? ==> |r.value.0| + ReqOrder(n) == MAX_ORDER
  {
    match Find(t, MAX_ORDER, ReqOrder(n), FREE_UNMAPPED, true)
    case None => None
    case Some(p) =>
      FindSound(t, MAX_ORDER, ReqOrder(n), FREE_UNMAPPED, true);
      Some((p, Mark(t, p, Flags(PNODE_USED, mapping))))
  }

  /** What free_pages does to a USED block. */
  function Release(t: Tree, p: Path): Tree
    requires Covers(t, p)
  {
    Mark(t, p, Freed(Along(t, p)))
  }

  /** The flags free_pages finds at block p: those of the leaf around it, or what an interior node caches. */
  function FoundAt(t: Tree, p: Path): Flags {
    MarkOfCarved(t, p, FREE_RAM);
    Summary(At(Carve(t, p), p))
  }

  /** free_pages on the block of a handle: its result and the tree it leaves. */
  function FreeBlock(t: Tree, p: Path): (Err, Tree) {
    if FoundAt(t, p).status != PNODE_USED then (KPANIC, Carve(t, p))
    else if !Covers(t, p) then (KCORRUPT, t)
    else (ESUCCESS, Release(t, p))
  }

  /** In a leaf it finds the flags of the leaf. */
  lemma FoundInLeaf(t: Tree, p: Path)
    requires Covers(t, p)
    ensures FoundAt(t, p) == Along(t, p) && Has(Carve(t, p), p) && At(Carve(t, p), p) == Leaf(Along(t, p))
  {
    MarkOfCarved(t, p, FREE_RAM);
    CarveCovers(t, p);
    CoveredNode(Carve(t, p), p);
  }

  /** A block that is neither a leaf nor inside one is an interior node. */
  lemma {:induction false} NotCovered(t: Tree, p: Path)
    requires !Covers(t, p)
    ensures Has(t, p) && At(t, p).Branch? && Carve(t, p) == t
  {
    if p != [] { NotCovered(Child(t, p[0]), p[1..]); }
  }

  /** The block a handle names, when free_pages does not reject the handle. */
  predicate WellFormed(info: PageInfo) {
    info.count > 0 && And(info.count, info.count - 1) == 0 && info.memory % info.count == 0
  }

  function BlockOf(info: PageInfo): (p: Path)
    ensures |p| <= MAX_ORDER
  {
    PathOf(info.memory / X86_PAGE_SIZE, MAX_ORDER, if BitLen(info.count) == 0 then 0 else BitLen(info.count) - 1)
  }

  lemma HandleWellFormed(p: Path)
    requires |p| <= MAX_ORDER
    ensures WellFormed(Handle(p))
  {
    var a, d := Addr(p, MAX_ORDER), Pow2(MAX_ORDER - |p|);
    assert And(d, d - 1) == 0 by {
      BitLenPow2(MAX_ORDER - |p|);
      AndPredIsPowerTest(d);
    }
    assert (a * X86_PAGE_SIZE) % d == 0 by {
      AddrBounds(p, MAX_ORDER);
      ScaledMultiple(a, X86_PAGE_SIZE, d);
    }
  }

  /** A handle made by an allocation is accepted by free_pages and names the block it was made for. */
  lemma HandleNamesBlock(p: Path)
    requires |p| <= MAX_ORDER
    ensures WellFormed(Handle(p)) && BlockOf(Handle(p)) == p
  {
    HandleWellFormed(p);
    BitLenPow2(MAX_ORDER - |p|);
    PathOfAddr(p, 0, MAX_ORDER, MAX_ORDER - |p|, Addr(p, MAX_ORDER));
    assert Handle(p).memory / X86_PAGE_SIZE == Addr(p, MAX_ORDER);
  }

  /** Which handles free_pages takes: the count is a power of two and divides the byte address. */
  lemma WellFormedExact(info: PageInfo)
    ensures WellFormed(info) <==> exists k: nat :: info.count == Pow2(k) && info.memory % info.count == 0
  {
    if WellFormed(info) {
      AndPredIsPowerTest(info.count);
      assert info.count == Pow2(BitLen(info.count) - 1);
    }
    if k: nat :| info.count == Pow2(k) && info.memory % info.count == 0 {
      BitLenPow2(k);
      AndPredIsPowerTest(info.count);
    }
  }

  /** The block it then frees is the one of that many pages which holds the page of the address; more than all pages means all. */
  lemma BlockOfExact(info: PageInfo, k: nat)
    requires info.count == Pow2(k)
    ensures |BlockOf(info)| == (if k <= MAX_ORDER then MAX_ORDER - k else 0)
    ensures k <= MAX_ORDER ==> InBlock(BlockOf(info), MAX_ORDER, (info.memory / 4096) % PAGES)
  {
    var a := info.memory / 4096;
    BitLenPow2(k);
    Pow2_20();
    if k <= MAX_ORDER {
      PathOfHolds(a, MAX_ORDER, k);
      LowPart(a, k);
    }
  }

  /** The lower bits of a number are at most its remainder. */
  lemma LowPart(a: nat, k: nat)
    requires k <= MAX_ORDER
    ensures a % Pow2(k) <= a % Pow2(MAX_ORDER)
  {
    Pow2Divides(k, MAX_ORDER);
    ModBelow(a, Pow2(MAX_ORDER), Pow2(k));
  }

  lemma ModBelow(a: nat, m: nat, d: nat)
    requires m > 0 && d > 0 && m % d == 0
    ensures a % d <= a % m
  {
    ModOfMod(a, m, d);
    var b := a % m;
    assert b % d <= b;
  }

  lemma ModOfMod(a: nat, m: nat, d: nat)
    requires m > 0 && d > 0 && m % d == 0
    ensures (a % m) % d == a % d
  {
    var q, c, b := a / m, m / d, a % m;
    var e := b / d;
    assert a == q * m + b && m == c * d && b == e * d + b % d;
    Regroup(q, c, e, d);
    DivModUnique(a, q * c + e, b % d, d);
  }

  lemma Regroup(q: nat, c: nat, e: nat, d: nat)
    ensures q * (c * d) + e * d == (q * c + e) * d
  {
  }

  // ---------- what becomes of the pages ----------

  /** A grant of RAM makes the pages of its block USED, which were free RAM, and changes nothing else. */
  lemma RamGranted(t: Tree, n: nat, x: nat)
    requires Fits(t, MAX_ORDER) && n > 0 && x < PAGES && GrantRam(t, n).Some?
    ensures var (p, t1) := GrantRam(t, n).value;
      && Fits(t1, MAX_ORDER)
      && (InBlock(p, MAX_ORDER, x) ==>
            && FlagsAt(t, MAX_ORDER, x).status & PNODE_FREE != 0 && FlagsAt(t, MAX_ORDER, x).mapping & PNODE_ON_RAM != 0
            && FlagsAt(t1, MAX_ORDER, x) == Flags(PNODE_USED, FlagsAt(t, MAX_ORDER, x).mapping))
      && (!InBlock(p, MAX_ORDER, x) ==> FlagsAt(t1, MAX_ORDER, x) == FlagsAt(t, MAX_ORDER, x))
  {
    var (p, t1) := GrantRam(t, n).value;
    FindSound(t, MAX_ORDER, ReqOrder(n), FREE_RAM, false);
    Pow2_20();
    MarkPagesOfBlock(t, MAX_ORDER, p, Along(t, p).(status := PNODE_USED), x);
    if InBlock(p, MAX_ORDER, x) { AlongPages(t, MAX_ORDER, p, x); }
  }

  /** A grant of unmapped memory makes the pages of its block USED with the mapping asked for, and changes nothing else. */
  lemma MappedGranted(t: Tree, mapping: bv4, n: nat, x: nat)
    requires Fits(t, MAX_ORDER) && n > 0 && x < PAGES && GrantMapped(t, mapping, n).Some?
    ensures var (p, t1) := GrantMapped(t, mapping, n).value;
      && Fits(t1, MAX_ORDER)
      && (InBlock(p, MAX_ORDER, x) ==>
            && FlagsAt(t, MAX_ORDER, x).status & PNODE_FREE != 0 && FlagsAt(t, MAX_ORDER, x).mapping & PNODE_UNMAPPED != 0
            && FlagsAt(t1, MAX_ORDER, x) == Flags(PNODE_USED, mapping))
      && (!InBlock(p, MAX_ORDER, x) ==> FlagsAt(t1, MAX_ORDER, x) == FlagsAt(t, MAX_ORDER, x))
  {
    var (p, t1) := GrantMapped(t, mapping, n).value;
    FindSound(t, MAX_ORDER, ReqOrder(n), FREE_UNMAPPED, true);
    Pow2_20();
    MarkPagesOfBlock(t, MAX_ORDER, p, Flags(PNODE_USED, mapping), x);
    if InBlock(p, MAX_ORDER, x) { AlongPages(t, MAX_ORDER, p, x); }
  }

  /**
   Freeing a block that is a leaf or lies in one succeeds exactly if its first page is USED, else it panics. Its
   pages are then free RAM if they were RAM, and free unmapped memory otherwise; no other page changes.
   */
  lemma BlockFreed(t: Tree, p: Path, x: nat)
    requires Fits(t, MAX_ORDER) && |p| <= MAX_ORDER && Covers(t, p) && x < PAGES
    ensures Addr(p, MAX_ORDER) < PAGES
    ensures var was, (r, t1) := FlagsAt(t, MAX_ORDER, Addr(p, MAX_ORDER)), FreeBlock(t, p);
      && r == (if was.status == PNODE_USED then ESUCCESS else KPANIC) && Fits(t1, MAX_ORDER)
      && FlagsAt(t1, MAX_ORDER, x) ==
         if r != ESUCCESS || !InBlock(p, MAX_ORDER, x) then FlagsAt(t, MAX_ORDER, x)
         else if was.mapping == PNODE_ON_RAM then FREE_RAM else FREE_UNMAPPED
  {
    FoundInLeaf(t, p);
    Pow2_20();
    AddrBounds(p, MAX_ORDER);
    AlongPages(t, MAX_ORDER, p, Addr(p, MAX_ORDER));
    MarkPagesOfBlock(t, MAX_ORDER, p, Freed(Along(t, p)), x);
    CarvePages(t, MAX_ORDER, p, x);
  }

  /** page_mgr_ctx_t: the list of records, and whether there is a heap to keep them in. */
  class PageMgrCtx {
    const tracked: bool
    var allocs: seq<PageInfo>

    constructor (tracked: bool)
      ensures this.tracked == tracked && allocs == []
    {
      this.tracked, allocs := tracked, [];
    }
  }

  /** allocate_pages. A count of 0 is not meaningful: the count of leading zeros is undefined for it. */
  method AllocatePages(ba: BuddyAllocator, ctx: PageMgrCtx, pageCnt: nat) returns (r: AllocResult)
    requires ba.Valid() && 0 < pageCnt < U32
    modifies ba`nodes, ba.nodes`flags, ba.nodes`children, ba.nodes`model, ctx`allocs
    ensures ba.Valid() && ba.root == old(ba.root) && fresh(ba.nodes - old(ba.nodes))
    ensures Fits(old(ba.root.model), MAX_ORDER)
    ensures match GrantRam(old(ba.root.model), pageCnt)
      case None => r == Failed(ENOPAGE) && ba.root.model == old(ba.root.model) && ctx.allocs == old(ctx.allocs)
      case Some((p, t)) =>
        && r == Granted(Handle(p)) && ba.root.model == t
        && ctx.allocs == old(ctx.allocs) + (if ctx.tracked then [Handle(p)] else [])
  {
    var reqOrder := BitLen(pageCnt);
    if And(pageCnt, pageCnt - 1) == 0 { reqOrder := reqOrder - 1; }
    r := ReserveRam(ba, reqOrder, pageCnt);
    if r.Granted? && ctx.tracked { ctx.allocs := ctx.allocs + [r.info]; }
  }

  /** The part of allocate_pages that works on the tree. */
  method ReserveRam(ba: BuddyAllocator, reqOrder: nat, ghost n: nat) returns (r: AllocResult)
    requires ba.Valid() && n > 0 && reqOrder == ReqOrder(n)
    modifies ba`nodes, ba.nodes`flags, ba.nodes`children, ba.nodes`model
    ensures ba.Valid() && ba.root == old(ba.root) && fresh(ba.nodes - old(ba.nodes))
    ensures Fits(old(ba.root.model), MAX_ORDER)
    ensures match GrantRam(old(ba.root.model), n)
      case None => r == Failed(ENOPAGE) && ba.root.model == old(ba.root.model)
      case Some((p, t)) => r == Granted(Handle(p)) && ba.root.model == t
  {
    ghost var t := ba.root.model;
    ba.NodeRange(ba.root);
    var node, _ := ba.Search(reqOrder, FREE_RAM, false);
    if node == null { return Failed(ENOPAGE); }
    GrantedLeaf(ba, t, node, FREE_RAM, false);
    MarkOfCarved(t, node.path, node.flags.(status := PNODE_USED));
    FreePermits(node.flags, node.right, Flags(PNODE_USED, 0), false);
    var info := PageInfo(node.address * X86_PAGE_SIZE, Pow2(node.order));
    var _ := ba.SetStatus(node, PNODE_USED, false, false);
    r := Granted(info);
  }

  /** What is known of the node a successful search returns. */
  lemma GrantedLeaf(ba: BuddyAllocator, t: Tree, node: Node, want: Flags, rev: bool)
    requires ba.Valid() && node in ba.nodes && node.children.NoKids?
    requires Fits(t, MAX_ORDER) && Find(t, MAX_ORDER, node.order, want, rev) == Some(node.path)
    requires ba.root.model == Carve(t, node.path)
    ensures Covers(t, node.path) && node.flags == Along(t, node.path) && Match(node.flags, want)
    ensures |node.path| + node.order == MAX_ORDER && node.address == Addr(node.path, MAX_ORDER)
    ensures PageInfo(node.address * X86_PAGE_SIZE, Pow2(node.order)) == Handle(node.path)
  {
    assert ba.Linked(node) && ba.Cached(node);
    FindSound(t, MAX_ORDER, node.order, want, rev);
    ba.NodeAt(node);
    CarvedLeaf(t, node.path);
  }

  /** The part of allocate_mapped_pages that works on the tree. */
  method ReserveMapped(ba: BuddyAllocator, reqOrder: nat, mapping: bv4, ghost n: nat) returns (r: AllocResult)
    requires ba.Valid() && n > 0 && reqOrder == ReqOrder(n)
    modifies ba`nodes, ba.nodes`flags, ba.nodes`children, ba.nodes`model
    ensures ba.Valid() && ba.root == old(ba.root) && fresh(ba.nodes - old(ba.nodes))
    ensures Fits(old(ba.root.model), MAX_ORDER)
    ensures match GrantMapped(old(ba.root.model), mapping, n)
      case None => r == Failed(ENOPAGE) && ba.root.model == old(ba.root.model)
      case Some((p, t)) => r == Granted(Handle(p)) && ba.root.model == t
  {
    ghost var t := ba.root.model;
    ba.NodeRange(ba.root);
    var node, _ := ba.Search(reqOrder, FREE_UNMAPPED, true);
    if node == null { return Failed(ENOPAGE); }
    GrantedLeaf(ba, t, node, FREE_UNMAPPED, true);
    MarkOfCarved(t, node.path, Flags(PNODE_USED, mapping));
    FreePermits(node.flags, node.right, Flags(PNODE_USED, mapping), false);
    var info := PageInfo(node.address * X86_PAGE_SIZE, Pow2(node.order));
    var _, _ := ba.SetFlags(node, Flags(PNODE_USED, mapping), false, false);
    r := Granted(info);
  }

  /** allocate_mapped_pages; kind is the mapping part of the caller's flags. */
  method AllocateMappedPages(ba: BuddyAllocator, ctx: PageMgrCtx, kind: bv4, pageCnt: nat) returns (r: AllocResult)
    requires ba.Valid() && pageCnt < U32 && ctx.tracked
    modifies ba`nodes, ba.nodes`flags, ba.nodes`children, ba.nodes`model, ctx`allocs
    ensures ba.Valid() && ba.root == old(ba.root) && fresh(ba.nodes - old(ba.nodes))
    ensures Fits(old(ba.root.model), MAX_ORDER)
    ensures var mapping := kind & (PNODE_BLK_MAPPED | PNODE_IO_MAPPED);
      if pageCnt == 0 || mapping == 0 then
        r == Failed(EINVAL) && ba.root.model == old(ba.root.model) && ctx.allocs == old(ctx.allocs)
      else match GrantMapped(old(ba.root.model), mapping, pageCnt)
        case None => r == Failed(ENOPAGE) && ba.root.model == old(ba.root.model) && ctx.allocs == old(ctx.allocs)
        case Some((p, t)) => r == Granted(Handle(p)) && ba.root.model == t && ctx.allocs == old(ctx.allocs) + [Handle(p)]
  {
    ba.NodeRange(ba.root);
    if pageCnt == 0 { return Failed(EINVAL); }
    var mapping := kind & (PNODE_BLK_MAPPED | PNODE_IO_MAPPED);
    if mapping == 0 { return Failed(EINVAL); }
    var reqOrder := BitLen(pageCnt);
    if And(pageCnt, pageCnt - 1) == 0 { reqOrder := reqOrder - 1; }
    r := ReserveMapped(ba, reqOrder, mapping, pageCnt);
    if r.Granted? { ctx.allocs := ctx.allocs + [r.info]; }
  }

  /**
   free_pages. The handle may name a leaf, a block inside a leaf, which is then split off, or an
   interior node; only a handle that names a node splits nothing.
   */
  method FreePages(ba: BuddyAllocator, info: PageInfo) returns (r: Err)
    requires ba.Valid()
    modifies ba`nodes, ba.nodes`flags, ba.nodes`children, ba.nodes`model
    ensures ba.Valid() && ba.root == old(ba.root) && fresh(ba.nodes - old(ba.nodes))
    ensures !WellFormed(info) ==> r == EINVAL && ba.root.model == old(ba.root.model)
    ensures WellFormed(info) ==> (r, ba.root.model) == FreeBlock(old(ba.root.model), BlockOf(info))
    ensures WellFormed(info) && Has(old(ba.root.model), BlockOf(info)) ==> ba.nodes <= old(ba.nodes)
  {
    if info.count == 0 { return EINVAL; }
    if And(info.count, info.count - 1) != 0 { return EINVAL; }
    if info.memory % info.count != 0 { return EINVAL; }
    ghost var t, p := ba.root.model, BlockOf(info);
    var node := ba.FindNode(info.memory / X86_PAGE_SIZE, BitLen(info.count) - 1);
    FoundNode(ba, t, node);
    if node.flags.status != PNODE_USED { return KPANIC; }
    if node.children.Kids? { return KCORRUPT; }
    r := FreeLeaf(ba, node, t);
  }

  /** What is known of the node free_pages looks up. */
  lemma FoundNode(ba: BuddyAllocator, t: Tree, node: Node)
    requires ba.Valid() && node in ba.nodes && ba.root.model == Carve(t, node.path)
    ensures node.flags == FoundAt(t, node.path) && (Covers(t, node.path) <==> node.children.NoKids?)
    ensures Covers(t, node.path) ==> node.flags == Along(t, node.path)
    ensures node.children.Kids? ==> ba.root.model == t
  {
    var p := node.path;
    assert ba.Linked(node) && ba.Cached(node);
    ba.NodeAt(node);
    ba.NodeSummary(node);
    if Covers(t, p) { FoundInLeaf(t, p); } else { NotCovered(t, p); }
  }

  /** The part of free_pages that writes the flags of a USED leaf. */
  method FreeLeaf(ba: BuddyAllocator, node: Node, ghost t: Tree) returns (r: Err)
    requires ba.Valid() && node in ba.nodes && node.children.NoKids? && node.flags.status == PNODE_USED
    requires ba.root.model == Carve(t, node.path) && Covers(t, node.path) && node.flags == Along(t, node.path)
    modifies ba`nodes, ba.nodes`flags, ba.nodes`children, ba.nodes`model
    ensures ba.Valid() && ba.root == old(ba.root) && ba.nodes <= old(ba.nodes)
    ensures r == ESUCCESS && ba.root.model == Release(t, node.path)
  {
    MarkOfCarved(t, node.path, Freed(node.flags));
    if node.flags.mapping == PNODE_ON_RAM {
      r := ba.SetStatus(node, PNODE_FREE, true, false);
    } else {
      var _, _ := ba.SetFlags(node, FREE_UNMAPPED, true, false);
    }
    r := ESUCCESS;
  }

  lemma {:induction false} CoveredNode(t: Tree, p: Path)
    requires Covers(t, p) && Has(t, p)
    ensures At(t, p) == Leaf(Along(t, p))
  {
    if p != [] { CoveredNode(Child(t, p[0]), p[1..]); }
  }
}
