/**
 Destroying a page manager context. free_pages never takes a record out of its context, so the records
 of a context are all the blocks it was ever granted, and destroying it frees every one of them again.
 */
module Teardown {
  import opened Bits
  import opened Options
  import opened PageTree
  import opened Buddy
  import opened Errors
  import opened PageMgr
  import opened PageRuns

  /** destroy_page_mgr_ctx on values: frees the recorded blocks in order, up to the first round that does not return. */
  function DestroyRun(t: Tree, blocks: seq<Path>): (Err, Tree)
    decreases |blocks|
  {
    if blocks == [] then (ESUCCESS, t)
    else
      var (r, t1) := FreeBlock(t, blocks[0]);
      if r != ESUCCESS then (r, t1) else DestroyRun(t1, blocks[1..])
  }

  /** The records of a context are the handles of some blocks. */
  ghost predicate Recorded(allocs: seq<PageInfo>, blocks: seq<Path>) {
    |allocs| == |blocks| && forall i | 0 <= i < |blocks| :: |blocks[i]| <= MAX_ORDER && allocs[i] == Handle(blocks[i])
  }

  /** destroy_page_mgr_ctx */
  method DestroyPageMgrCtx(ba: BuddyAllocator, ctx: PageMgrCtx, ghost blocks: seq<Path>) returns (r: Err)
    requires ba.Valid() && Recorded(ctx.allocs, blocks)
    modifies ba`nodes, ba.nodes`flags, ba.nodes`children, ba.nodes`model
    ensures ba.Valid() && ba.root == old(ba.root) && fresh(ba.nodes - old(ba.nodes))
    ensures (r, ba.root.model) == DestroyRun(old(ba.root.model), blocks)
  {
    ghost var t := ba.root.model;
    assert blocks[0..] == blocks;
    for i := 0 to |ctx.allocs|
      invariant ba.Valid() && ba.root == old(ba.root) && fresh(ba.nodes - old(ba.nodes))
      invariant DestroyRun(t, blocks) == DestroyRun(ba.root.model, blocks[i..])
    {
      HandleNamesBlock(blocks[i]);
      assert blocks[i..][1..] == blocks[i + 1..];
      r := FreePages(ba, ctx.allocs[i]);
      if r != ESUCCESS { return; }
    }
    r := ESUCCESS;
  }

  // ---------- when destroying is right ----------

  /** The pages of a block, and of a set of blocks. */
  ghost function Block(p: Path): set<nat>
    requires |p| <= MAX_ORDER
  {
    set x: nat | x < PAGES && InBlock(p, MAX_ORDER, x)
  }

  ghost function PagesOf(own: set<Path>): set<nat> {
    set x: nat | x < PAGES && InLive(own, MAX_ORDER, x)
  }

  ghost predicate Short(blocks: seq<Path>) {
    forall i | 0 <= i < |blocks| :: |blocks[i]| <= MAX_ORDER
  }

  /** Every round returns and frees only pages that the context holds at that moment. */
  ghost predicate Right(t: Tree, held: set<nat>, blocks: seq<Path>)
    requires Short(blocks)
    decreases |blocks|
  {
    blocks == [] ||
    (&& FreeBlock(t, blocks[0]).0 == ESUCCESS && Block(blocks[0]) <= held
     && Right(FreeBlock(t, blocks[0]).1, held - Block(blocks[0]), blocks[1..]))
  }

  function Elements(blocks: seq<Path>): set<Path> {
    set p | p in blocks
  }

  predicate NoRepeats(blocks: seq<Path>) {
    forall i, j | 0 <= i < j < |blocks| :: blocks[i] != blocks[j]
  }

  lemma FirstPage(p: Path)
    requires |p| <= MAX_ORDER
    ensures Addr(p, MAX_ORDER) in Block(p) && forall x: nat :: x in Block(p) <==> InBlock(p, MAX_ORDER, x)
  {
    Pow2_20();
    AddrBounds(p, MAX_ORDER);
  }

  lemma BlockHeld(own: set<Path>, p: Path)
    requires p in own && |p| <= MAX_ORDER
    ensures Block(p) <= PagesOf(own)
  {
    FirstPage(p);
    forall x | x in Block(p) ensures x in PagesOf(own) { assert InBlock(p, MAX_ORDER, x); }
  }

  /** Rounds that are all right free disjoint blocks. */
  lemma {:induction false} RightDisjoint(t: Tree, held: set<nat>, blocks: seq<Path>)
    requires Short(blocks) && Right(t, held, blocks)
    ensures forall i | 0 <= i < |blocks| :: Block(blocks[i]) <= held
    ensures forall i, j | 0 <= i < j < |blocks| :: Block(blocks[i]) !! Block(blocks[j])
    decreases |blocks|
  {
    if blocks != [] {
      var rest := blocks[1..];
      RightDisjoint(FreeBlock(t, blocks[0]).1, held - Block(blocks[0]), rest);
      forall i | 0 <= i < |blocks| ensures Block(blocks[i]) <= held && (i > 0 ==> Block(blocks[0]) !! Block(blocks[i])) {
        if i > 0 { assert blocks[i] == rest[i - 1]; }
      }
      forall i, j | 0 <= i < j < |blocks| ensures Block(blocks[i]) !! Block(blocks[j]) {
        if i > 0 { assert blocks[i] == rest[i - 1] && blocks[j] == rest[j - 1]; }
      }
    }
  }

  /** Without its first block, the others are still held. */
  lemma HeldWithout(t0: Tree, s: State, own: set<Path>, p: Path)
    requires PageRuns.Inv(t0, s) && own <= s.live && p in own
    ensures PagesOf(own - {p}) <= PagesOf(own) - Block(p)
  {
    forall x | x in PagesOf(own - {p}) ensures x in PagesOf(own) && x !in Block(p) {
      var q :| q in own - {p} && |q| <= MAX_ORDER && InBlock(q, MAX_ORDER, x);
      LiveDisjoint(t0, s, p, q, x);
    }
  }

  /** Distinct live blocks are freed without a hitch, and then no longer live. */
  lemma {:induction false} LiveRecordsFreed(t0: Tree, s: State, own: set<Path>, held: set<nat>, blocks: seq<Path>)
    requires PageRuns.Inv(t0, s) && own <= s.live && PagesOf(own) <= held
    requires Short(blocks) && NoRepeats(blocks) && Elements(blocks) == own
    ensures Right(s.tree, held, blocks)
    ensures DestroyRun(s.tree, blocks).0 == ESUCCESS && PageRuns.Inv(t0, State(DestroyRun(s.tree, blocks).1, s.live - own))
    decreases |blocks|
  {
    if blocks != [] {
      var p, rest := blocks[0], blocks[1..];
      assert p in Elements(blocks);
      ReleaseKeeps(t0, s, p);
      BlockHeld(own, p);
      HeldWithout(t0, s, own, p);
      assert Elements(rest) == own - {p} by {
        assert blocks == [p] + rest;
        forall q | q in rest ensures q in own && q != p { var i :| 0 <= i < |rest| && rest[i] == q; assert blocks[i + 1] == q; }
        forall q | q in own && q != p ensures q in rest { assert q in blocks; }
      }
      LiveRecordsFreed(t0, State(Release(s.tree, p), s.live - {p}), own - {p}, held - Block(p), rest);
      assert s.live - {p} - (own - {p}) == s.live - own;
    } else {
      assert own == {} && s.live - own == s.live;
    }
  }

  /**
   Destroying a context that holds the blocks `own`, all of them on record, neither panics nor frees a
   page the context does not hold, if and only if its records are exactly the blocks it holds, each once.
   */
  lemma DestroyExact(t0: Tree, s: State, own: set<Path>, blocks: seq<Path>)
    requires PageRuns.Inv(t0, s) && own <= s.live && Short(blocks) && own <= Elements(blocks)
    ensures Right(s.tree, PagesOf(own), blocks) <==> NoRepeats(blocks) && Elements(blocks) == own
  {
    if Right(s.tree, PagesOf(own), blocks) {
      RightDisjoint(s.tree, PagesOf(own), blocks);
      forall i, j | 0 <= i < j < |blocks| ensures blocks[i] != blocks[j] { FirstPage(blocks[i]); }
      forall p | p in blocks ensures p in own { DisjointOwn(own, blocks, p); }
    } else if NoRepeats(blocks) && Elements(blocks) == own {
      LiveRecordsFreed(t0, s, own, PagesOf(own), blocks);
    }
  }

  /** Among disjoint blocks that include the held ones, a block of held pages is a held one. */
  lemma DisjointOwn(own: set<Path>, blocks: seq<Path>, p: Path)
    requires Short(blocks) && own <= Elements(blocks) && p in blocks && Block(p) <= PagesOf(own)
    requires forall i, j | 0 <= i < j < |blocks| :: Block(blocks[i]) !! Block(blocks[j])
    ensures p in own
  {
    var i :| 0 <= i < |blocks| && blocks[i] == p;
    var x, q := SharedPage(own, p);
    var j :| 0 <= j < |blocks| && blocks[j] == q;
    assert i == j;
  }

  lemma SharedPage(own: set<Path>, p: Path) returns (x: nat, q: Path)
    requires |p| <= MAX_ORDER && Block(p) <= PagesOf(own)
    ensures q in own && |q| <= MAX_ORDER && x in Block(p) && x in Block(q)
  {
    x := Addr(p, MAX_ORDER);
    FirstPage(p);
    assert x in PagesOf(own);
    q :| q in own && |q| <= MAX_ORDER && InBlock(q, MAX_ORDER, x);
  }

  /** The flags found at a block contain those of each of its pages. */
  lemma {:induction false} FoundSeesPage(t: Tree, k: nat, p: Path, x: nat)
    requires Fits(t, k) && |p| <= k && InBlock(p, k, x)
    ensures FoundAt(t, p).status | FlagsAt(t, k, x).status == FoundAt(t, p).status
  {
    MarkOfCarved(t, p, FREE_RAM);
    if p == [] {
      SummarySeesPage(t, k, x);
    } else {
      var h := Pow2(k - 1);
      AddrBounds(p[1..], k - 1);
      FoundSeesPage(Child(Split(t), p[0]), k - 1, p[1..], if p[0] then x - h else x);
    }
  }

  lemma {:induction false} SummarySeesPage(t: Tree, k: nat, x: nat)
    requires Fits(t, k)
    ensures Summary(t).status | FlagsAt(t, k, x).status == Summary(t).status
  {
    if t.Branch? {
      var h := Pow2(k - 1);
      if x < h { SummarySeesPage(t.left, k - 1, x); } else { SummarySeesPage(t.right, k - 1, x - h); }
    }
  }

  /**
   What a round does that is not right: it panics, unless every page of the block that the context does
   not hold belongs to somebody else by now, and then it frees pages of others or corrupts the tree.
   */
  lemma StaleRound(t0: Tree, s: State, own: set<Path>, p: Path, x: nat)
    requires PageRuns.Inv(t0, s) && own <= s.live && |p| <= MAX_ORDER
    requires Fits(t0, MAX_ORDER) && x in Block(p) && x !in PagesOf(own) && FlagsAt(t0, MAX_ORDER, x).status == PNODE_FREE
    ensures FreeBlock(s.tree, p).0 == KPANIC || x in PagesOf(s.live - own)
  {
    FirstPage(p);
    Pow2_20();
    UndoPages(s.tree, s.live, MAX_ORDER, x);
    if InLive(s.live, MAX_ORDER, x) {
      var q :| q in s.live && |q| <= MAX_ORDER && InBlock(q, MAX_ORDER, x);
      assert q in s.live - own;
    } else {
      FoundSeesPage(s.tree, MAX_ORDER, p, x);
    }
  }

  // ---------- what goes wrong after a free ----------

  /** Granting and freeing a block gives back the tree, and then freeing the block once more panics. */
  lemma FreedTwice(t0: Tree, s: State, n: nat, p: Path, t1: Tree)
    requires PageRuns.Inv(t0, s) && n > 0 && GrantRam(s.tree, n) == Some((p, t1))
    ensures |p| <= MAX_ORDER && FreeBlock(t1, p) == (ESUCCESS, s.tree)
    ensures FreeBlock(s.tree, p).0 == KPANIC && DestroyRun(s.tree, [p]).0 == KPANIC
  {
    FindSound(s.tree, MAX_ORDER, ReqOrder(n), FREE_RAM, false);
    CleanAlong(s.tree, p);
    MatchesExactly(Along(s.tree, p), FREE_RAM);
    var used := FREE_RAM.(status := PNODE_USED);
    MarkedLeaf(s.tree, p, used);
    LeafAlong(t1, p);
    MarkUndone(s.tree, p, used);
    FoundInLeaf(t1, p);
    FoundInLeaf(s.tree, p);
  }

  /**
   A context that allocates, frees what it got, and is destroyed panics the kernel, whatever the size and
   whatever else has happened before.
   */
  method AllocateFreeDestroy(ba: BuddyAllocator, ctx: PageMgrCtx, n: nat, ghost t0: Tree, ghost live: set<Path>) returns (r: Err)
    requires ba.Valid() && PageRuns.Inv(t0, State(ba.root.model, live)) && ctx.tracked && ctx.allocs == [] && 0 < n < U32
    modifies ba`nodes, ba.nodes`flags, ba.nodes`children, ba.nodes`model, ctx`allocs
    ensures GrantRam(old(ba.root.model), n).Some? ==> r == KPANIC
  {
    ghost var s := State(ba.root.model, live);
    var pages := AllocatePages(ba, ctx, n);
    if pages.Failed? { return ENOPAGE; }
    ghost var p, t1 := GrantRam(s.tree, n).value.0, ba.root.model;
    FreedTwice(t0, s, n, p, t1);
    HandleNamesBlock(p);
    var freed := FreePages(ba, pages.info);
    assert freed == ESUCCESS && ba.root.model == s.tree;
    r := DestroyPageMgrCtx(ba, ctx, [p]);
  }

  /** If another context has been granted the block in the meantime, destroying the first one frees it. */
  lemma FreedUnderAnother(t0: Tree, s: State, n: nat, p: Path, t1: Tree)
    requires PageRuns.Inv(t0, s) && n > 0 && GrantRam(s.tree, n) == Some((p, t1))
    ensures FreeBlock(t1, p) == (ESUCCESS, s.tree) && GrantRam(FreeBlock(t1, p).1, n) == Some((p, t1))
    ensures DestroyRun(t1, [p]) == (ESUCCESS, s.tree) && !Right(t1, {}, [p])
  {
    FreedTwice(t0, s, n, p, t1);
    FirstPage(p);
    assert [p][1..] == [];
    assert DestroyRun(s.tree, []) == (ESUCCESS, s.tree);
  }
}
