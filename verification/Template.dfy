/**
 make_template_page_table: the page tables every address space starts from map each page of a used
 RAM leaf to itself. Template pages are consecutive frames, the first of them the directory.
 */
module Template {
  import opened Bits
  import opened Errors
  import opened PageTree
  import opened Buddy
  import opened Paging

  const USED_RAM: Flags := Flags(PNODE_USED, PNODE_ON_RAM)

  predicate UsedRam(t: Tree, x: nat)
    requires Fits(t, MAX_ORDER)
  {
    FlagsAt(t, MAX_ORDER, x) == USED_RAM
  }

  /** The directory entries that used RAM pages below n fall under. */
  function Dirs(t: Tree, n: nat): set<nat>
    requires Fits(t, MAX_ORDER)
  {
    if n == 0 then {} else Dirs(t, n - 1) + (if UsedRam(t, n - 1) then {Pd(n - 1)} else {})
  }

  /** A directory entry is in use exactly when some used RAM page falls under it. */
  lemma {:induction false} DirsExact(t: Tree, n: nat, i: nat)
    requires Fits(t, MAX_ORDER)
    ensures i in Dirs(t, n) <==> exists x: nat :: x < n && UsedRam(t, x) && Pd(x) == i
  {
    if n > 0 { DirsExact(t, n - 1, i); }
  }

  /** A run of used RAM pages adds the entries from its first page's to its last page's. */
  lemma {:induction false} DirsOfRun(t: Tree, n: nat, m: nat, i: nat)
    requires Fits(t, MAX_ORDER) && n < m && forall x: nat | n <= x < m :: UsedRam(t, x)
    ensures i in Dirs(t, m) <==> i in Dirs(t, n) || Pd(n) <= i <= Pd(m - 1)
  {
    assert UsedRam(t, m - 1);
    if n < m - 1 {
      DirsOfRun(t, n, m - 1, i);
      assert Pd(n) <= Pd(m - 2) <= Pd(m - 1) <= Pd(m - 2) + 1;
    }
  }

  /** q maps exactly the used RAM pages below n, each to itself. */
  ghost predicate PagesBuilt(t: Tree, q: Space, n: nat) {
    && Fits(t, MAX_ORDER)
    && (forall x: nat {:trigger x in q.pages} :: x in q.pages <==> x < n && UsedRam(t, x))
    && (forall x | x in q.pages :: q.pages[x] == Page(x, X86_PAGE_RW))
  }

  lemma TemplateMeans(t: Tree, q: Space)
    requires PagesBuilt(t, q, PAGES)
    ensures forall x: nat {:trigger FlagsAt(t, MAX_ORDER, x)} | x < PAGES ::
      && (x in q.pages <==> FlagsAt(t, MAX_ORDER, x).status == PNODE_USED && FlagsAt(t, MAX_ORDER, x).mapping == PNODE_ON_RAM)
      && (x in q.pages ==> q.pages[x] == Page(x, {1}))
  {
  }

  /** It does so on the directory and the frames that follow it, `taken` in all. */
  ghost predicate TablesBuilt(t: Tree, q: Space, dir: nat, n: nat, taken: nat) {
    && Fits(t, MAX_ORDER)
    && q.tables.Keys == Dirs(t, n) && |q.tables| + 1 == taken
    && (forall i | i in q.tables :: dir < q.tables[i] < dir + taken)
  }

  ghost predicate Built(t: Tree, q: Space, dir: nat, n: nat, taken: nat) {
    PagesBuilt(t, q, n) && TablesBuilt(t, q, dir, n, taken)
  }

  lemma TakenIsDirs(t: Tree, q: Space, dir: nat, n: nat, taken: nat)
    requires TablesBuilt(t, q, dir, n, taken)
    ensures taken == |Dirs(t, n)| + 1
  {
    assert q.tables.Keys == Dirs(t, n);
  }

  /** A leaf that is not used RAM adds nothing. */
  lemma {:induction false} SkipLeaf(t: Tree, n: nat, m: nat)
    requires Fits(t, MAX_ORDER) && n <= m && forall x: nat | n <= x < m :: !UsedRam(t, x)
    ensures Dirs(t, m) == Dirs(t, n)
  {
    if n < m {
      SkipLeaf(t, n, m - 1);
      assert !UsedRam(t, m - 1);
    }
  }

  lemma BuiltSkip(t: Tree, q: Space, dir: nat, n: nat, taken: nat, m: nat)
    requires Built(t, q, dir, n, taken) && n <= m && forall x: nat | n <= x < m :: !UsedRam(t, x)
    ensures Built(t, q, dir, m, taken)
  {
    SkipLeaf(t, n, m);
  }

  /** A used RAM leaf is mapped to itself, on as many more tables as x86_map_pages counts. */
  lemma PagesMap(t: Tree, q: Space, n: nat, size: nat, upto: nat, spare: nat)
    requires PagesBuilt(t, q, n) && upto == n + size && forall x: nat | n <= x < upto :: UsedRam(t, x)
    ensures PagesBuilt(t, MapRange(q, n, n, X86_PAGE_RW, size, spare), upto)
  {
    MapRangePages(q, n, n, X86_PAGE_RW, size, spare);
  }

  lemma TablesMap(t: Tree, q: Space, dir: nat, n: nat, taken: nat, size: nat, upto: nat, spare: nat, taken': nat)
    requires TablesBuilt(t, q, dir, n, taken) && 0 < size && upto == n + size
    requires spare == dir + taken && taken' == taken + Used(q, n, size)
    requires forall x: nat | n <= x < upto :: UsedRam(t, x)
    ensures TablesBuilt(t, MapRange(q, n, n, X86_PAGE_RW, size, spare), dir, upto, taken')
  {
    var r := MapRange(q, n, n, X86_PAGE_RW, size, spare);
    UsedIsExact(q, n, n, X86_PAGE_RW, size, spare);
    forall i: nat
      ensures i in r.tables <==> i in Dirs(t, upto)
      ensures i in r.tables ==> dir < r.tables[i] < dir + taken'
    {
      MapRangeTables(q, n, n, X86_PAGE_RW, size, spare);
      DirsOfRun(t, n, upto, i);
    }
    assert r.tables.Keys == Dirs(t, upto);
  }

  /** The template pages that follow the tables are spare. */
  lemma NextSpare(t: Tree, q: Space, dir: nat, n: nat, taken: nat, spare: nat, need: nat)
    requires TablesBuilt(t, q, dir, n, taken) && spare == dir + taken && spare + need <= FRAMES
    ensures Spare(q, dir, spare, need)
  {
  }

  lemma {:induction false} DirsGrow(t: Tree, n: nat, m: nat)
    requires Fits(t, MAX_ORDER) && n <= m
    ensures |Dirs(t, n)| <= |Dirs(t, m)|
  {
    if n < m {
      DirsGrow(t, n, m - 1);
      var a, i := Dirs(t, m - 1), Pd(m - 1);
      assert i in a ==> a + {i} == a;
    }
  }

  /** Map one used RAM leaf: KPANIC when the template pages run out. */
  method MapUsed(mem: array2<Word>, dir: nat, pageCount: nat, pageIdx: nat, first: nat, size: nat, ghost upto: nat, ghost t: Tree, ghost q: Space)
    returns (r: Err, pageIdx': nat, ghost q': Space)
    requires 0 < pageIdx <= pageCount && dir + pageCount <= FRAMES
    requires Holds(mem, dir, q) && Built(t, q, dir, first, pageIdx)
    requires 0 < size && upto == first + size <= PAGES
    requires forall x: nat | first <= x < upto :: UsedRam(t, x)
    modifies mem
    ensures r == ESUCCESS || r == KPANIC
    ensures r == ESUCCESS ==>
      Holds(mem, dir, q') && 0 < pageIdx' <= pageCount && Built(t, q', dir, upto, pageIdx')
    ensures r == KPANIC ==> |Dirs(t, PAGES)| + 1 > pageCount
  {
    var spare := dir + pageIdx;
    var req := GetPageCount(mem, dir, first, size, q);
    pageIdx' := pageIdx + req;
    q' := MapRange(q, first, first, X86_PAGE_RW, size, spare);
    PagesMap(t, q, first, size, upto, spare);
    TablesMap(t, q, dir, first, pageIdx, size, upto, spare, pageIdx');
    if pageIdx' > pageCount {
      TakenIsDirs(t, q', dir, upto, pageIdx');
      DirsGrow(t, upto, PAGES);
      return KPANIC, pageIdx', q';
    }
    NextSpare(t, q, dir, first, pageIdx, spare, Used(q, first, size));
    r := MapPages(mem, dir, first, first, size, X86_PAGE_RW, spare, req, q);
  }

  /** All pages of a leaf carry its flags. */
  lemma LeafPages(ba: BuddyAllocator, node: Node)
    requires ba.Valid() && node in ba.nodes && node.children.NoKids?
    ensures Fits(ba.root.model, MAX_ORDER) && node.address + Pow2(node.order) <= PAGES
    ensures forall x: nat | node.address <= x < node.address + Pow2(node.order) :: UsedRam(ba.root.model, x) <==> node.flags == USED_RAM
  {
    ba.NodeRange(node);
    forall x: nat | node.address <= x < node.address + Pow2(node.order)
      ensures UsedRam(ba.root.model, x) <==> node.flags == USED_RAM
    {
      ba.LeafPage(node, x);
    }
  }

  /** One round of make_template_page_table: a leaf is skipped or mapped. */
  method MapLeaf(ba: BuddyAllocator, node: Node, mem: array2<Word>, dir: nat, pageCount: nat, pageIdx: nat, ghost t: Tree, ghost q: Space)
    returns (r: Err, pageIdx': nat, ghost q': Space, ghost upto: nat)
    requires 0 < pageIdx <= pageCount && dir + pageCount <= FRAMES
    requires ba.Valid() && node in ba.nodes && node.children.NoKids? && t == ba.root.model
    requires Holds(mem, dir, q) && Built(t, q, dir, node.address, pageIdx)
    modifies mem
    ensures ba.Valid() && upto == node.address + Pow2(node.order) <= PAGES
    ensures r == ESUCCESS || r == KPANIC
    ensures r == ESUCCESS ==> Holds(mem, dir, q') && 0 < pageIdx' <= pageCount && Built(t, q', dir, upto, pageIdx')
    ensures r == KPANIC ==> Fits(t, MAX_ORDER) && |Dirs(t, PAGES)| + 1 > pageCount
  {
    var first, size := node.address, Pow2(node.order);
    upto := first + size;
    LeafPages(ba, node);
    if node.flags != USED_RAM {
      BuiltSkip(t, q, dir, first, pageIdx, upto);
      r, pageIdx', q' := ESUCCESS, pageIdx, q;
    } else {
      r, pageIdx', q' := MapUsed(mem, dir, pageCount, pageIdx, first, size, upto, t, q);
    }
  }

  /** Where the walk over the leaves stands: `upto` is the first page not looked at yet. */
  ghost predicate Standing(ba: BuddyAllocator, curr: Node?, upto: nat)
    requires ba.Valid()
    reads ba, ba.nodes
  {
    if curr == null then upto == PAGES else curr in ba.nodes && curr.children.NoKids? && upto == curr.address < PAGES
  }

  /** A round and the step to the next leaf. */
  method MapNext(ba: BuddyAllocator, node: Node, mem: array2<Word>, dir: nat, pageCount: nat, pageIdx: nat, ghost t: Tree, ghost q: Space)
    returns (r: Err, pageIdx': nat, next: Node?, ghost q': Space, ghost upto: nat)
    requires 0 < pageIdx <= pageCount && dir + pageCount <= FRAMES
    requires ba.Valid() && Standing(ba, node, node.address) && t == ba.root.model
    requires Holds(mem, dir, q) && Built(t, q, dir, node.address, pageIdx)
    modifies mem
    ensures ba.Valid() && node.address < upto && Standing(ba, next, upto)
    ensures r == ESUCCESS || r == KPANIC
    ensures r == ESUCCESS ==> Holds(mem, dir, q') && 0 < pageIdx' <= pageCount && Built(t, q', dir, upto, pageIdx')
    ensures r == KPANIC ==> Fits(t, MAX_ORDER) && |Dirs(t, PAGES)| + 1 > pageCount
  {
    r, pageIdx', q', upto := MapLeaf(ba, node, mem, dir, pageCount, pageIdx, t, q);
    next := ba.NextLeaf(node);
    if next != null { LeafPages(ba, next); }
  }

  /** The empty map make_template_page_table starts from. */
  method EmptyTemplate(ba: BuddyAllocator, mem: array2<Word>, dir: nat, ghost t: Tree) returns (ghost q: Space)
    requires ba.Valid() && t == ba.root.model && Memory(mem, dir)
    modifies mem
    ensures ba.Valid() && Holds(mem, dir, q) && Built(t, q, dir, 0, 1)
  {
    ba.NodeRange(ba.root);
    ConstructPagetable(mem, dir);
    q := Space(map[], map[]);
  }

  /**
   make_template_page_table. It panics exactly when the template pages are fewer than the directory
   and one table for every directory entry in use; otherwise a page is present exactly when it is a
   used RAM page, and it translates to itself.
   */
  method MakeTemplatePageTable(ba: BuddyAllocator, mem: array2<Word>, dir: nat, pageCount: nat) returns (r: Err, ghost q: Space)
    requires ba.Valid() && Memory(mem, dir) && 0 < pageCount && dir + pageCount <= FRAMES
    modifies mem
    ensures Fits(ba.root.model, MAX_ORDER)
    ensures r == if |Dirs(ba.root.model, PAGES)| + 1 > pageCount then KPANIC else ESUCCESS
    ensures r == ESUCCESS ==> Holds(mem, dir, q) && PagesBuilt(ba.root.model, q, PAGES)
    ensures r == ESUCCESS ==> forall x: nat {:trigger FlagsAt(ba.root.model, MAX_ORDER, x)} | x < PAGES ::
      && (x in q.pages <==> FlagsAt(ba.root.model, MAX_ORDER, x).status == PNODE_USED && FlagsAt(ba.root.model, MAX_ORDER, x).mapping == PNODE_ON_RAM)
      && (x in q.pages ==> q.pages[x] == Page(x, {1}))
  {
    ghost var t, upto := ba.root.model, 0;
    q := EmptyTemplate(ba, mem, dir, t);
    var pageIdx: nat := 1;
    assert ba.Linked(ba.root);
    var curr: Node? := ba.MinLeaf(ba.root);
    while curr != null
      invariant ba.Valid() && Holds(mem, dir, q) && 0 < pageIdx <= pageCount
      invariant Standing(ba, curr, upto)
      invariant Built(t, q, dir, upto, pageIdx) && upto <= PAGES
      decreases PAGES - upto, curr != null
    {
      r, pageIdx, curr, q, upto := MapNext(ba, curr, mem, dir, pageCount, pageIdx, t, q);
      if r == KPANIC { return; }
    }
    TakenIsDirs(t, q, dir, upto, pageIdx);
    TemplateMeans(t, q);
    r := ESUCCESS;
  }
}
