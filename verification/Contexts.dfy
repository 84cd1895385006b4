/**
 Several page manager contexts over one buddy tree. A run interleaves their allocations, mappings and
 frees, and destroys contexts; the theorems say that they never get in each other's way.
 */
module Contexts {
  import opened Bits
  import opened Options
  import opened PageTree
  import opened Buddy
  import opened Errors
  import opened PageMgr
  import opened Paging
  import opened Teardown
  import R = PageRuns
  import A = AddressSpace

  /**
   One context: its page tables and the pages pmgr_alloc_pages mapped in them; the live blocks taken by
   pmgr_alloc_pages and those handed to clients; every block ever recorded; whether a client has freed one.
   */
  datatype Ctx = Ctx(dir: nat, space: Space, mine: set<nat>, mapped: set<Path>, handed: set<Path>, records: seq<Path>, freed: bool)

  datatype World = World(tree: Tree, ctxs: map<nat, Ctx>)

  datatype Op =
    | AllocRam(c: nat, n: nat)
    | AllocMapped(c: nat, kind: bv4, n: nat)
    | AllocAndMap(c: nat, call: A.Call)
    | Free(c: nat, block: Path)
    | Destroy(c: nat)

  function Own(x: Ctx): set<Path> {
    x.mapped + x.handed
  }

  /** All live blocks. */
  ghost function Live(ctxs: map<nat, Ctx>): set<Path> {
    set c, p | c in ctxs && p in Own(ctxs[c]) :: p
  }

  /** The part of the world one context is about. */
  function Part(w: World, c: nat): A.State
    requires c in w.ctxs
  {
    A.State(w.tree, w.ctxs[c].space, w.ctxs[c].mine, w.ctxs[c].mapped)
  }

  /** A context is granted a block, to keep for a mapping or to hand out. */
  function Granted(x: Ctx, p: Path, keep: bool): Ctx {
    var y := x.(records := x.records + [p]);
    if keep then y.(mapped := x.mapped + {p}) else y.(handed := x.handed + {p})
  }

  function Take(w: World, c: nat, p: Path, t: Tree, keep: bool): World
    requires c in w.ctxs
  {
    World(t, w.ctxs[c := Granted(w.ctxs[c], p, keep)])
  }

  function Blocks(block: Option<Path>): seq<Path> {
    if block.Some? then [block.value] else []
  }

  /** A context after pmgr_alloc_pages. */
  function Mapped(x: Ctx, call: A.Call, o: A.Outcome): Ctx {
    x.(space := o.space, mine := x.mine + A.Mapping(call, o), mapped := x.mapped + A.Taken(o),
       records := x.records + Blocks(o.data) + Blocks(o.tables))
  }

  function Step(w: World, op: Op): World
    requires Fits(w.tree, MAX_ORDER) && op.c in w.ctxs
  {
    var c, x := op.c, w.ctxs[op.c];
    match op
    case AllocRam(_, n) =>
      if n == 0 then w else (match GrantRam(w.tree, n) case None => w case Some((p, t)) => Take(w, c, p, t, false))
    case AllocMapped(_, kind, n) =>
      var mapping := kind & (PNODE_BLK_MAPPED | PNODE_IO_MAPPED);
      if n == 0 || mapping == 0 then w
      else (match GrantMapped(w.tree, mapping, n) case None => w case Some((p, t)) => Take(w, c, p, t, false))
    case AllocAndMap(_, call) =>
      var o := A.PmgrAlloc(w.tree, x.space, call.v, call.n, call.attrs);
      World(o.tree, w.ctxs[c := Mapped(x, call, o)])
    case Free(_, p) =>
      World(FreeBlock(w.tree, p).1, w.ctxs[c := x.(handed := x.handed - {p}, freed := true)])
    case Destroy(_) =>
      World(DestroyRun(w.tree, x.records).1, w.ctxs - {c})
  }

  /**
   What clients owe: mappings go to fresh virtual pages, a block is freed only while its client holds it,
   and a context is destroyed only if none of its blocks was freed before.
   */
  ghost predicate Allowed(w: World, op: Op) {
    && Fits(w.tree, MAX_ORDER) && op.c in w.ctxs
    && match op
       case AllocAndMap(c, call) => A.Allowed(Part(w, c), call)
       case Free(c, p) => p in w.ctxs[c].handed
       case Destroy(c) => !w.ctxs[c].freed
       case _ => true
  }

  // ---------- the invariant ----------

  /** Frame f is the directory, a page table or the target of a mapped page of x. */
  ghost predicate Frame(x: Ctx, f: nat) {
    f == x.dir || IsTable(x.space, f) || exists v :: v in x.mine && v in x.space.pages && x.space.pages[v].frame == f
  }

  /** Every block held is on record, and the records are exactly those blocks until one has been freed. */
  ghost predicate Booked(x: Ctx) {
    && Short(x.records) && Own(x) <= Elements(x.records) && x.mapped !! x.handed
    && (x.freed <==> !(NoRepeats(x.records) && Elements(x.records) == Own(x)))
  }

  ghost predicate Sound(w: World, c: nat)
    requires c in w.ctxs
  {
    Booked(w.ctxs[c]) && A.Inv(w.ctxs[c].dir, Part(w, c))
  }

  /** Two contexts have no block and no frame in common. */
  ghost predicate Separate(x: Ctx, y: Ctx) {
    Own(x) !! Own(y) && forall f :: !(Frame(x, f) && Frame(y, f))
  }

  /** A frame of x lies in no block of y, unless it is a mapped block of x itself. */
  ghost predicate Placed(x: Ctx, y: Ctx, same: bool) {
    forall f, p | Frame(x, f) && p in Own(y) && |p| <= MAX_ORDER && InBlock(p, MAX_ORDER, f) :: same && p in x.mapped
  }

  ghost predicate SeparateAt(ctxs: map<nat, Ctx>, c: nat, d: nat)
    requires c in ctxs && d in ctxs
  {
    Separate(ctxs[c], ctxs[d])
  }

  ghost predicate PlacedAt(ctxs: map<nat, Ctx>, c: nat, d: nat)
    requires c in ctxs && d in ctxs
  {
    Placed(ctxs[c], ctxs[d], c == d)
  }

  ghost predicate Inv(t0: Tree, w: World) {
    && R.Inv(t0, R.State(w.tree, Live(w.ctxs))) && A.Held(t0, 0)
    && (forall c {:trigger Sound(w, c)} | c in w.ctxs :: Sound(w, c))
    && (forall c, d {:trigger SeparateAt(w.ctxs, c, d)} | c in w.ctxs && d in w.ctxs && c != d :: SeparateAt(w.ctxs, c, d))
    && (forall c, d {:trigger PlacedAt(w.ctxs, c, d)} | c in w.ctxs && d in w.ctxs :: PlacedAt(w.ctxs, c, d))
  }

  // ---------- frames stay in use ----------

  /** A page that is in use stays in use as long as its block, if it has one, is live. */
  lemma HeldStays(t0: Tree, s: R.State, s': R.State, x: nat)
    requires R.Inv(t0, s) && R.Inv(t0, s') && A.Held(s.tree, x)
    requires InLive(s.live, MAX_ORDER, x) ==> InLive(s'.live, MAX_ORDER, x)
    ensures A.Held(s'.tree, x)
  {
    Pow2_20();
    UndoPages(s.tree, s.live, MAX_ORDER, x);
    UndoPages(s'.tree, s'.live, MAX_ORDER, x);
  }

  /** A page that was in use at the start is in no live block. */
  lemma NeverLive(t0: Tree, s: R.State, x: nat)
    requires R.Inv(t0, s) && A.Held(t0, x)
    ensures !InLive(s.live, MAX_ORDER, x)
  {
    Pow2_20();
    UndoPages(s.tree, s.live, MAX_ORDER, x);
  }

  /** The frames of a context are in use. */
  lemma FrameHeld(w: World, c: nat, f: nat)
    requires c in w.ctxs && A.Inv(w.ctxs[c].dir, Part(w, c)) && Frame(w.ctxs[c], f)
    ensures A.Held(w.tree, f)
  {
  }

  /** A context is as sound in another tree that keeps its frames in use. */
  lemma OtherTree(dir: nat, st: A.State, x: Ctx, t: Tree)
    requires A.Inv(dir, st) && dir == x.dir && st.space == x.space && st.mine == x.mine
    requires A.Held(t, 0) && forall f | Frame(x, f) :: A.Held(t, f)
    ensures A.Inv(dir, st.(tree := t))
  {
    assert Frame(x, dir);
    forall i | i in st.space.tables ensures A.Held(t, st.space.tables[i]) {
      assert IsTable(st.space, st.space.tables[i]);
      assert Frame(x, st.space.tables[i]);
    }
    forall v | v in st.mine ensures A.Held(t, st.space.pages[v].frame) {
      assert v in st.space.pages;
      assert Frame(x, st.space.pages[v].frame);
    }
  }

  lemma LiveHas(ctxs: map<nat, Ctx>, c: nat, p: Path)
    requires c in ctxs && p in Own(ctxs[c])
    ensures p in Live(ctxs)
  {
  }

  // ---------- granting ----------

  lemma LiveWith(w: World, c: nat, p: Path, t: Tree, keep: bool)
    requires c in w.ctxs
    ensures Live(Take(w, c, p, t, keep).ctxs) == Live(w.ctxs) + {p}
  {
    var w' := Take(w, c, p, t, keep);
    assert Own(w'.ctxs[c]) == Own(w.ctxs[c]) + {p};
    forall q | q in Live(w.ctxs) + {p} ensures q in Live(w'.ctxs) {
      if q == p {
        LiveHas(w'.ctxs, c, p);
      } else {
        var d :| d in w.ctxs && q in Own(w.ctxs[d]);
        LiveHas(w'.ctxs, d, q);
      }
    }
  }

  lemma GrantBooked(x: Ctx, p: Path, keep: bool)
    requires Booked(x) && p !in Own(x) && |p| <= MAX_ORDER
    ensures Booked(Granted(x, p, keep))
  {
    var y := Granted(x, p, keep);
    assert Own(y) == Own(x) + {p};
    assert Elements(y.records) == Elements(x.records) + {p} by {
      forall q | q in Elements(x.records) + {p} ensures q in y.records {
        if q in x.records { var i :| 0 <= i < |x.records| && x.records[i] == q; assert y.records[i] == q; }
        else { assert y.records[|x.records|] == p; }
      }
    }
    if NoRepeats(y.records) {
      forall i, j | 0 <= i < j < |x.records| ensures x.records[i] != x.records[j] {
        assert y.records[i] == x.records[i] && y.records[j] == x.records[j];
      }
      forall i | 0 <= i < |x.records| ensures x.records[i] != p {
        assert y.records[i] == x.records[i] && y.records[|x.records|] == p;
      }
    } else if NoRepeats(x.records) {
      var i, j :| 0 <= i < j < |y.records| && y.records[i] == y.records[j];
      assert p in x.records;
    }
  }

  /** What is known when block p is granted and the tree becomes t. */
  ghost predicate Grant(t0: Tree, w: World, p: Path, t: Tree) {
    && |p| <= MAX_ORDER && p !in Live(w.ctxs)
    && Fits(w.tree, MAX_ORDER) && (forall x: nat | x < PAGES && InBlock(p, MAX_ORDER, x) :: A.Available(w.tree, x))
    && R.Inv(t0, R.State(t, Live(w.ctxs) + {p}))
  }

  /** A frame of any context is outside a block that is being granted. */
  lemma FrameNotGranted(t0: Tree, w: World, p: Path, t: Tree, c: nat, f: nat)
    requires Inv(t0, w) && Grant(t0, w, p, t) && c in w.ctxs && Frame(w.ctxs[c], f)
    ensures !InBlock(p, MAX_ORDER, f) && A.Held(t, f)
  {
    assert Sound(w, c);
    FrameHeld(w, c, f);
    var s, s' := R.State(w.tree, Live(w.ctxs)), R.State(t, Live(w.ctxs) + {p});
    if InLive(s.live, MAX_ORDER, f) {
      var q :| q in s.live && |q| <= MAX_ORDER && InBlock(q, MAX_ORDER, f);
      assert q in s'.live;
    }
    HeldStays(t0, s, s', f);
  }

  lemma TakeSound(t0: Tree, w: World, c: nat, p: Path, t: Tree, keep: bool, d: nat)
    requires Inv(t0, w) && c in w.ctxs && Grant(t0, w, p, t) && d in w.ctxs
    ensures Sound(Take(w, c, p, t, keep), d)
  {
    var w' := Take(w, c, p, t, keep);
    assert Sound(w, d);
    NeverLive(t0, R.State(w.tree, Live(w.ctxs)), 0);
    HeldStays(t0, R.State(w.tree, Live(w.ctxs)), R.State(t, Live(w.ctxs) + {p}), 0);
    forall f | Frame(w.ctxs[d], f) ensures A.Held(t, f) { FrameNotGranted(t0, w, p, t, d, f); }
    OtherTree(w.ctxs[d].dir, Part(w, d), w.ctxs[d], t);
    if d == c {
      LiveHasNot(w, c, p);
      GrantBooked(w.ctxs[c], p, keep);
      MoreBlocks(w.ctxs[c].space, w.ctxs[c].mine, w.ctxs[c].mapped, w'.ctxs[c].mapped);
    }
  }

  lemma LiveHasNot(w: World, c: nat, p: Path)
    requires c in w.ctxs && p !in Live(w.ctxs)
    ensures p !in Own(w.ctxs[c])
  {
  }

  lemma MoreBlocks(s: Space, mine: set<nat>, a: set<Path>, b: set<Path>)
    requires A.Owned(s, mine, a) && a <= b
    ensures A.Owned(s, mine, b)
  {
    forall v | v in mine ensures InLive(b, MAX_ORDER, s.pages[v].frame) {
      var q :| q in a && |q| <= MAX_ORDER && InBlock(q, MAX_ORDER, s.pages[v].frame);
      assert q in b;
    }
  }

  lemma TakeSeparate(w: World, w': World, d: nat, e: nat, p: Path)
    requires d in w.ctxs && e in w.ctxs && SeparateAt(w.ctxs, d, e) && p !in Live(w.ctxs)
    requires d in w'.ctxs && e in w'.ctxs && SameMap(w.ctxs[d], w'.ctxs[d]) && SameMap(w.ctxs[e], w'.ctxs[e])
    requires Own(w'.ctxs[d]) <= Own(w.ctxs[d]) + {p} && Own(w'.ctxs[e]) <= Own(w.ctxs[e]) + {p}
    requires p !in Own(w'.ctxs[d]) || p !in Own(w'.ctxs[e])
    ensures SeparateAt(w'.ctxs, d, e)
  {
    LiveHasNot(w, d, p);
    LiveHasNot(w, e, p);
  }

  lemma TakePlaced(t0: Tree, w: World, c: nat, p: Path, t: Tree, keep: bool, d: nat, e: nat)
    requires Inv(t0, w) && c in w.ctxs && Grant(t0, w, p, t) && d in w.ctxs && e in w.ctxs
    ensures var w' := Take(w, c, p, t, keep); PlacedAt(w'.ctxs, d, e)
  {
    var w' := Take(w, c, p, t, keep);
    assert PlacedAt(w.ctxs, d, e) && SameMap(w.ctxs[d], w'.ctxs[d]);
    forall f, q | Frame(w'.ctxs[d], f) && q in Own(w'.ctxs[e]) && |q| <= MAX_ORDER && InBlock(q, MAX_ORDER, f)
      ensures d == e && q in w'.ctxs[d].mapped
    {
      FrameNotGranted(t0, w, p, t, d, f);
      assert q != p && q in Own(w.ctxs[e]);
    }
  }

  /** The two have the same page tables and mapped pages, hence the same frames. */
  ghost predicate SameMap(x: Ctx, y: Ctx) {
    x.dir == y.dir && x.space == y.space && x.mine == y.mine && forall f :: Frame(x, f) <==> Frame(y, f)
  }

  /** A grant keeps the invariant. */
  lemma TakeKeeps(t0: Tree, w: World, c: nat, p: Path, t: Tree, keep: bool)
    requires Inv(t0, w) && c in w.ctxs && Grant(t0, w, p, t)
    ensures Inv(t0, Take(w, c, p, t, keep))
  {
    var w' := Take(w, c, p, t, keep);
    LiveWith(w, c, p, t, keep);
    assert Own(w'.ctxs[c]) == Own(w.ctxs[c]) + {p};
    forall d | d in w'.ctxs ensures Sound(w', d) && SameMap(w.ctxs[d], w'.ctxs[d]) && (d != c ==> p !in Own(w'.ctxs[d])) {
      TakeSound(t0, w, c, p, t, keep, d);
      LiveHasNot(w, d, p);
    }
    TakeAllSeparate(w, w', c, p);
    TakeAllPlaced(t0, w, c, p, t, keep, w');
  }

  lemma TakeAllSeparate(w: World, w': World, c: nat, p: Path)
    requires w'.ctxs.Keys == w.ctxs.Keys && c in w.ctxs && p !in Live(w.ctxs)
    requires forall d, e {:trigger SeparateAt(w.ctxs, d, e)} | d in w.ctxs && e in w.ctxs && d != e :: SeparateAt(w.ctxs, d, e)
    requires forall d | d in w.ctxs :: SameMap(w.ctxs[d], w'.ctxs[d]) && Own(w'.ctxs[d]) <= Own(w.ctxs[d]) + {p} && (d != c ==> p !in Own(w'.ctxs[d]))
    ensures forall d, e {:trigger SeparateAt(w'.ctxs, d, e)} | d in w'.ctxs && e in w'.ctxs && d != e :: SeparateAt(w'.ctxs, d, e)
  {
    forall d, e | d in w'.ctxs && e in w'.ctxs && d != e ensures SeparateAt(w'.ctxs, d, e) {
      assert SeparateAt(w.ctxs, d, e);
      TakeSeparate(w, w', d, e, p);
    }
  }

  lemma TakeAllPlaced(t0: Tree, w: World, c: nat, p: Path, t: Tree, keep: bool, w': World)
    requires Inv(t0, w) && c in w.ctxs && Grant(t0, w, p, t) && w' == Take(w, c, p, t, keep)
    ensures forall d, e {:trigger PlacedAt(w'.ctxs, d, e)} | d in w'.ctxs && e in w'.ctxs :: PlacedAt(w'.ctxs, d, e)
  {
    forall d, e | d in w'.ctxs && e in w'.ctxs ensures PlacedAt(w'.ctxs, d, e) { TakePlaced(t0, w, c, p, t, keep, d, e); }
  }

  lemma GrantRamIs(t0: Tree, w: World, n: nat, p: Path, t: Tree)
    requires Inv(t0, w) && n > 0 && GrantRam(w.tree, n) == Some((p, t))
    ensures Grant(t0, w, p, t)
  {
    var s := R.State(w.tree, Live(w.ctxs));
    FindSound(w.tree, MAX_ORDER, ReqOrder(n), FREE_RAM, false);
    R.CleanAlong(w.tree, p);
    R.MatchesExactly(Along(w.tree, p), FREE_RAM);
    R.GrantKeeps(t0, s, FREE_RAM, false, n, p, FREE_RAM.(status := PNODE_USED));
  }

  /** allocate_pages keeps the invariant. */
  lemma RamKeeps(t0: Tree, w: World, c: nat, n: nat, keep: bool)
    requires Inv(t0, w) && c in w.ctxs && n > 0 && GrantRam(w.tree, n).Some?
    ensures var (p, t) := GrantRam(w.tree, n).value; Inv(t0, Take(w, c, p, t, keep))
  {
    var (p, t) := GrantRam(w.tree, n).value;
    GrantRamIs(t0, w, n, p, t);
    TakeKeeps(t0, w, c, p, t, keep);
  }

  lemma GrantMappedIs(t0: Tree, w: World, mapping: bv4, n: nat, p: Path, t: Tree)
    requires Inv(t0, w) && n > 0 && GrantMapped(w.tree, mapping, n) == Some((p, t))
    requires mapping & (PNODE_BLK_MAPPED | PNODE_IO_MAPPED) == mapping != 0
    ensures Grant(t0, w, p, t)
  {
    var s := R.State(w.tree, Live(w.ctxs));
    assert mapping != PNODE_ON_RAM;
    R.GrantKeeps(t0, s, FREE_UNMAPPED, true, n, p, Flags(PNODE_USED, mapping));
  }

  // ---------- mapping ----------

  /** The frames of x are old ones or lie in mapped blocks of its own. */
  ghost predicate Grounded(x: Ctx, y: Ctx) {
    forall f | Frame(y, f) :: Frame(x, f) || InLive(y.mapped, MAX_ORDER, f)
  }

  /** Changing the map of one context, with frames from its own blocks, keeps the invariant. */
  lemma InstallKeeps(t0: Tree, w: World, c: nat, y: Ctx)
    requires Inv(t0, w) && c in w.ctxs && y == w.ctxs[c].(space := y.space, mine := y.mine)
    requires A.Inv(y.dir, A.State(w.tree, y.space, y.mine, y.mapped)) && Grounded(w.ctxs[c], y)
    ensures Inv(t0, World(w.tree, w.ctxs[c := y]))
  {
    var w' := World(w.tree, w.ctxs[c := y]);
    assert forall d | d in w.ctxs :: Own(w'.ctxs[d]) == Own(w.ctxs[d]);
    assert Live(w'.ctxs) == Live(w.ctxs);
    forall d | d in w'.ctxs ensures Sound(w', d) { assert Sound(w, d); }
    forall d | d in w.ctxs ensures Placed(y, w.ctxs[d], c == d) { InstallPlaced(t0, w, c, y, d); }
    forall d | d in w.ctxs && d != c ensures Separate(y, w.ctxs[d]) && Separate(w.ctxs[d], y) { InstallSeparate(t0, w, c, y, d); }
    forall d, e | d in w'.ctxs && e in w'.ctxs && d != e ensures SeparateAt(w'.ctxs, d, e) {
      assert SeparateAt(w.ctxs, d, e);
    }
    forall d, e | d in w'.ctxs && e in w'.ctxs ensures PlacedAt(w'.ctxs, d, e) {
      assert PlacedAt(w.ctxs, d, e);
      assert Own(w'.ctxs[e]) == Own(w.ctxs[e]);
    }
  }

  lemma InstallPlaced(t0: Tree, w: World, c: nat, y: Ctx, d: nat)
    requires Inv(t0, w) && c in w.ctxs && d in w.ctxs && y == w.ctxs[c].(space := y.space, mine := y.mine)
    requires Grounded(w.ctxs[c], y)
    ensures Placed(y, w.ctxs[d], c == d)
  {
    forall f, p | Frame(y, f) && p in Own(w.ctxs[d]) && |p| <= MAX_ORDER && InBlock(p, MAX_ORDER, f)
      ensures c == d && p in y.mapped
    {
      if Frame(w.ctxs[c], f) {
        assert PlacedAt(w.ctxs, c, d);
      } else {
        var q :| q in y.mapped && |q| <= MAX_ORDER && InBlock(q, MAX_ORDER, f);
        LiveHas(w.ctxs, c, q);
        LiveHas(w.ctxs, d, p);
        if p != q { R.LiveDisjoint(t0, R.State(w.tree, Live(w.ctxs)), p, q, f); }
        assert p == q;
        assert c != d ==> SeparateAt(w.ctxs, c, d);
      }
    }
  }

  lemma InstallSeparate(t0: Tree, w: World, c: nat, y: Ctx, d: nat)
    requires Inv(t0, w) && c in w.ctxs && d in w.ctxs && d != c && y == w.ctxs[c].(space := y.space, mine := y.mine)
    requires Grounded(w.ctxs[c], y)
    ensures Separate(y, w.ctxs[d]) && Separate(w.ctxs[d], y)
  {
    assert SeparateAt(w.ctxs, c, d) && PlacedAt(w.ctxs, d, c);
    forall f ensures !(Frame(y, f) && Frame(w.ctxs[d], f)) {
      if Frame(y, f) && !Frame(w.ctxs[c], f) {
        var q :| q in y.mapped && |q| <= MAX_ORDER && InBlock(q, MAX_ORDER, f);
        assert q in Own(w.ctxs[c]);
      }
    }
  }

  /** The frames a call adds lie in the blocks it was granted. */
  lemma NewFrames(w: World, c: nat, call: A.Call)
    requires Fits(w.tree, MAX_ORDER) && c in w.ctxs && Sound(w, c)
    ensures var o := A.PmgrAlloc(w.tree, w.ctxs[c].space, call.v, call.n, call.attrs);
      Grounded(w.ctxs[c], Mapped(w.ctxs[c], call, o))
  {
    var x := w.ctxs[c];
    var o := A.PmgrAlloc(w.tree, x.space, call.v, call.n, call.attrs);
    var y := Mapped(x, call, o);
    A.StepOwned(Part(w, c), call);
    forall f | Frame(y, f) && !Frame(x, f) ensures InLive(y.mapped, MAX_ORDER, f) {
      if IsTable(y.space, f) { NewTable(w.tree, x.space, call, f); assert InLive(A.Taken(o), MAX_ORDER, f); MoreLive(A.Taken(o), y.mapped, f); }
    }
  }

  lemma MoreLive(a: set<Path>, b: set<Path>, x: nat)
    requires a <= b && InLive(a, MAX_ORDER, x)
    ensures InLive(b, MAX_ORDER, x)
  {
    var q :| q in a && |q| <= MAX_ORDER && InBlock(q, MAX_ORDER, x);
    assert q in b;
  }

  /** A new page table lies in the block taken for tables. */
  lemma NewTable(t: Tree, s: Space, call: A.Call, f: nat)
    requires Fits(t, MAX_ORDER)
    requires IsTable(A.PmgrAlloc(t, s, call.v, call.n, call.attrs).space, f) && !IsTable(s, f)
    ensures InLive(A.Taken(A.PmgrAlloc(t, s, call.v, call.n, call.attrs)), MAX_ORDER, f)
  {
    var o := A.PmgrAlloc(t, s, call.v, call.n, call.attrs);
    var (p, t1) := GrantRam(t, call.n).value;
    A.GrantFits(t, call.n);
    var w := A.Target(call.v, p);
    var need := Used(s, w, call.n);
    MapRangeTables(s, w, Addr(p, MAX_ORDER), call.attrs, call.n, A.FrameOf(o.tables));
    var i :| i in o.space.tables && o.space.tables[i] == f;
    assert i in s.tables ==> IsTable(s, s.tables[i]);
    var (q, t2) := GrantRam(t1, need).value;
    A.GrantPages(t1, need, q, t2);
    assert q in A.Taken(o) && InBlock(q, MAX_ORDER, f);
  }

  /** The grants of a call, one after the other. */
  lemma MapGrants(t0: Tree, w: World, c: nat, call: A.Call) returns (w2: World)
    requires Inv(t0, w) && c in w.ctxs
    ensures Inv(t0, w2) && c in w2.ctxs && w2.ctxs == w.ctxs[c := w2.ctxs[c]]
    ensures var x := w.ctxs[c];
      var o := A.PmgrAlloc(w.tree, x.space, call.v, call.n, call.attrs);
      w2.tree == o.tree && w2.ctxs[c] == Mapped(x, call, o).(space := x.space, mine := x.mine)
  {
    var x := w.ctxs[c];
    var o := A.PmgrAlloc(w.tree, x.space, call.v, call.n, call.attrs);
    w2 := w;
    if o.data.Some? {
      var (p, t1) := GrantRam(w.tree, call.n).value;
      A.GrantFits(w.tree, call.n);
      RamKeeps(t0, w, c, call.n, true);
      w2 := Take(w, c, p, t1, true);
      if o.tables.Some? {
        var (q, t2) := GrantRam(t1, Used(x.space, A.Target(call.v, p), call.n)).value;
        RamKeeps(t0, w2, c, Used(x.space, A.Target(call.v, p), call.n), true);
        w2 := Take(w2, c, q, t2, true);
        assert A.Taken(o) == {p} + {q} && w2.tree == o.tree;
      } else {
        assert A.Taken(o) == {p} && w2.tree == o.tree;
      }
    }
    assert w2.ctxs[c] == Mapped(x, call, o).(space := x.space, mine := x.mine);
  }

  /** pmgr_alloc_pages keeps the invariant. */
  lemma MapKeeps(t0: Tree, w: World, c: nat, call: A.Call)
    requires Inv(t0, w) && Allowed(w, AllocAndMap(c, call))
    ensures Inv(t0, Step(w, AllocAndMap(c, call)))
  {
    var x := w.ctxs[c];
    var y := Mapped(x, call, A.PmgrAlloc(w.tree, x.space, call.v, call.n, call.attrs));
    assert Sound(w, c);
    A.StepKeeps(x.dir, Part(w, c), call);
    NewFrames(w, c, call);
    var w2 := MapGrants(t0, w, c, call);
    forall f ensures Frame(x, f) <==> Frame(w2.ctxs[c], f) {}
    InstallKeeps(t0, w2, c, y);
    assert w2.ctxs[c := y] == w.ctxs[c := y];
  }

  // ---------- giving back ----------

  /** Blocks are given back: contexts only lose blocks handed to clients, or disappear. */
  ghost predicate Shrunk(w: World, w': World) {
    && (forall c | c in w'.ctxs :: c in w.ctxs && Booked(w'.ctxs[c]) && w'.ctxs[c].handed <= w.ctxs[c].handed)
    && (forall c | c in w'.ctxs :: w'.ctxs[c] == w.ctxs[c].(handed := w'.ctxs[c].handed, freed := w'.ctxs[c].freed))
  }

  lemma ShrinkSound(t0: Tree, w: World, w': World, c: nat)
    requires Inv(t0, w) && Shrunk(w, w') && R.Inv(t0, R.State(w'.tree, Live(w'.ctxs))) && c in w'.ctxs
    ensures Sound(w', c)
  {
    var s, s' := R.State(w.tree, Live(w.ctxs)), R.State(w'.tree, Live(w'.ctxs));
    var x := w.ctxs[c];
    assert Sound(w, c);
    NeverLive(t0, s, 0);
    HeldStays(t0, s, s', 0);
    forall f | Frame(x, f) ensures A.Held(w'.tree, f) {
      FrameHeld(w, c, f);
      if InLive(s.live, MAX_ORDER, f) {
        var p :| p in s.live && |p| <= MAX_ORDER && InBlock(p, MAX_ORDER, f);
        var d :| d in w.ctxs && p in Own(w.ctxs[d]);
        assert PlacedAt(w.ctxs, c, d);
        LiveHas(w'.ctxs, c, p);
        assert InLive(s'.live, MAX_ORDER, f);
      }
      HeldStays(t0, s, s', f);
    }
    OtherTree(x.dir, Part(w, c), x, w'.tree);
  }

  lemma ShrinkKeeps(t0: Tree, w: World, w': World)
    requires Inv(t0, w) && Shrunk(w, w') && R.Inv(t0, R.State(w'.tree, Live(w'.ctxs)))
    ensures Inv(t0, w')
  {
    forall c | c in w'.ctxs ensures Sound(w', c) { ShrinkSound(t0, w, w', c); }
    forall c, f | c in w'.ctxs ensures Frame(w'.ctxs[c], f) <==> Frame(w.ctxs[c], f) {}
    forall c, d | c in w'.ctxs && d in w'.ctxs && c != d ensures SeparateAt(w'.ctxs, c, d) {
      assert SeparateAt(w.ctxs, c, d);
      assert Own(w'.ctxs[c]) <= Own(w.ctxs[c]) && Own(w'.ctxs[d]) <= Own(w.ctxs[d]);
    }
    forall c, d | c in w'.ctxs && d in w'.ctxs ensures PlacedAt(w'.ctxs, c, d) {
      assert PlacedAt(w.ctxs, c, d);
      assert Own(w'.ctxs[d]) <= Own(w.ctxs[d]);
    }
  }

  /** The blocks still live when context c has lost some of its own. */
  lemma LiveWithout(t0: Tree, w: World, w': World, c: nat, gone: set<Path>)
    requires Inv(t0, w) && c in w.ctxs && gone <= Own(w.ctxs[c])
    requires w'.ctxs - {c} == w.ctxs - {c}
    requires if c in w'.ctxs then Own(w'.ctxs[c]) == Own(w.ctxs[c]) - gone else Own(w.ctxs[c]) == gone
    ensures Live(w'.ctxs) == Live(w.ctxs) - gone
  {
    forall d | d != c ensures (d in w.ctxs <==> d in w'.ctxs) && (d in w.ctxs ==> w'.ctxs[d] == w.ctxs[d]) {
      assert d in w.ctxs <==> d in w.ctxs - {c};
      assert d in w'.ctxs <==> d in w'.ctxs - {c};
      if d in w.ctxs { assert (w.ctxs - {c})[d] == (w'.ctxs - {c})[d]; }
    }
    forall q | q in Live(w.ctxs) - gone ensures q in Live(w'.ctxs) {
      var d :| d in w.ctxs && q in Own(w.ctxs[d]);
      LiveHas(w'.ctxs, d, q);
    }
    forall q | q in Live(w'.ctxs) ensures q in Live(w.ctxs) && q !in gone {
      var d :| d in w'.ctxs && q in Own(w'.ctxs[d]);
      assert d != c ==> SeparateAt(w.ctxs, c, d);
      LiveHas(w.ctxs, d, q);
    }
  }

  lemma FreeBooked(x: Ctx, p: Path)
    requires Booked(x) && p in x.handed
    ensures Booked(x.(handed := x.handed - {p}, freed := true))
    ensures Own(x.(handed := x.handed - {p}, freed := true)) == Own(x) - {p}
  {
    assert p in Elements(x.records);
  }

  /** A client frees its block. */
  lemma FreeKeeps(t0: Tree, w: World, c: nat, p: Path)
    requires Inv(t0, w) && Allowed(w, Free(c, p))
    ensures FreeBlock(w.tree, p).0 == ESUCCESS && Inv(t0, Step(w, Free(c, p)))
  {
    var w' := Step(w, Free(c, p));
    assert Sound(w, c);
    LiveHas(w.ctxs, c, p);
    R.ReleaseKeeps(t0, R.State(w.tree, Live(w.ctxs)), p);
    FreeBooked(w.ctxs[c], p);
    LiveWithout(t0, w, w', c, {p});
    forall d | d in w'.ctxs ensures Booked(w'.ctxs[d]) { assert Sound(w, d); }
    ShrinkKeeps(t0, w, w');
  }

  /** A context is destroyed. */
  lemma DestroyKeeps(t0: Tree, w: World, c: nat)
    requires Inv(t0, w) && Allowed(w, Destroy(c))
    ensures DestroyRun(w.tree, w.ctxs[c].records).0 == ESUCCESS && Inv(t0, Step(w, Destroy(c)))
  {
    var w', x := Step(w, Destroy(c)), w.ctxs[c];
    var s := R.State(w.tree, Live(w.ctxs));
    assert Sound(w, c);
    forall p | p in Own(x) ensures p in s.live { LiveHas(w.ctxs, c, p); }
    LiveRecordsFreed(t0, s, Own(x), PagesOf(Own(x)), x.records);
    LiveWithout(t0, w, w', c, Own(x));
    forall d | d in w'.ctxs ensures Booked(w'.ctxs[d]) { assert Sound(w, d); }
    ShrinkKeeps(t0, w, w');
  }

  // ---------- runs ----------

  lemma StepKeeps(t0: Tree, w: World, op: Op)
    requires Inv(t0, w) && Allowed(w, op)
    ensures Inv(t0, Step(w, op))
  {
    match op
    case AllocRam(c, n) =>
      if n > 0 && GrantRam(w.tree, n).Some? { RamKeeps(t0, w, c, n, false); }
    case AllocMapped(c, kind, n) =>
      var mapping := kind & (PNODE_BLK_MAPPED | PNODE_IO_MAPPED);
      if n > 0 && mapping != 0 && GrantMapped(w.tree, mapping, n).Some? {
        var (p, t) := GrantMapped(w.tree, mapping, n).value;
        GrantMappedIs(t0, w, mapping, n, p, t);
        TakeKeeps(t0, w, c, p, t, false);
      }
    case AllocAndMap(c, call) => MapKeeps(t0, w, c, call);
    case Free(c, p) => FreeKeeps(t0, w, c, p);
    case Destroy(c) => DestroyKeeps(t0, w, c);
  }

  /** Contexts that have nothing yet, with page tables in use that they do not share. */
  ghost predicate Start(w: World) {
    && Fits(w.tree, MAX_ORDER) && Normal(w.tree) && R.CleanFree(w.tree) && A.Held(w.tree, 0)
    && (forall c | c in w.ctxs :: Fresh(w.ctxs[c]) && A.TablesHeld(w.ctxs[c].dir, w.tree, w.ctxs[c].space))
    && (forall c, d {:trigger SeparateAt(w.ctxs, c, d)} | c in w.ctxs && d in w.ctxs && c != d :: SeparateAt(w.ctxs, c, d))
  }

  ghost predicate Fresh(x: Ctx) {
    x.mine == {} && x.mapped == {} && x.handed == {} && x.records == [] && !x.freed
  }

  lemma StartInv(w: World)
    requires Start(w)
    ensures Inv(w.tree, w)
  {
    assert Live(w.ctxs) == {};
    UndoNothing(w.tree);
    R.NothingLive(w.tree);
    forall c | c in w.ctxs ensures Sound(w, c) {
      assert Fresh(w.ctxs[c]);
      assert Elements([]) == {} && Own(w.ctxs[c]) == {};
    }
    forall c, d | c in w.ctxs && d in w.ctxs ensures PlacedAt(w.ctxs, c, d) { assert Fresh(w.ctxs[d]); }
  }

  ghost predicate StepAt(ops: seq<Op>, states: seq<World>, i: nat)
    requires i < |ops| < |states|
  {
    Allowed(states[i], ops[i]) && states[i + 1] == Step(states[i], ops[i])
  }

  /** The states of a run. */
  ghost predicate RunOf(ops: seq<Op>, states: seq<World>) {
    && |states| == |ops| + 1 && Start(states[0])
    && forall i: nat {:trigger StepAt(ops, states, i)} | i < |ops| :: StepAt(ops, states, i)
  }

  lemma {:induction false} RunKeeps(ops: seq<Op>, states: seq<World>, i: nat)
    requires RunOf(ops, states) && i <= |ops|
    ensures Inv(states[0].tree, states[i])
  {
    if i == 0 {
      StartInv(states[0]);
    } else {
      RunKeeps(ops, states, i - 1);
      assert StepAt(ops, states, i - 1);
      StepKeeps(states[0].tree, states[i - 1], ops[i - 1]);
    }
  }

  /**
   Over every run a page that one context mapped lies in a block of that context, recorded there, and no
   other context maps the same frame, keeps a page table in it, has it as its directory, or holds its block.
   */
  lemma Isolation(ops: seq<Op>, states: seq<World>, i: nat, c: nat, d: nat, v: nat)
    requires RunOf(ops, states) && i <= |ops|
    requires c in states[i].ctxs && d in states[i].ctxs && c != d && v in states[i].ctxs[c].mine
    ensures var x, y := states[i].ctxs[c], states[i].ctxs[d];
      && v in x.space.pages
      && (var f := x.space.pages[v].frame;
          && (exists p :: p in x.mapped && p in x.records && |p| <= MAX_ORDER && InBlock(p, MAX_ORDER, f))
          && (forall u | u in y.mine :: u in y.space.pages && y.space.pages[u].frame != f)
          && f != y.dir && !IsTable(y.space, f)
          && (forall p | p in Own(y) && |p| <= MAX_ORDER :: !InBlock(p, MAX_ORDER, f)))
  {
    var w := states[i];
    RunKeeps(ops, states, i);
    var x, y := w.ctxs[c], w.ctxs[d];
    assert Sound(w, c) && Sound(w, d) && SeparateAt(w.ctxs, c, d) && PlacedAt(w.ctxs, c, d);
    assert v in x.space.pages;
    var f := x.space.pages[v].frame;
    assert Frame(x, f);
    var p :| p in x.mapped && |p| <= MAX_ORDER && InBlock(p, MAX_ORDER, f);
    assert p in Elements(x.records);
    forall u | u in y.mine ensures u in y.space.pages && y.space.pages[u].frame != f {
      assert Frame(y, y.space.pages[u].frame);
    }
  }

  /** Page tables of different contexts are different frames, too. */
  lemma TablesApart(ops: seq<Op>, states: seq<World>, i: nat, c: nat, d: nat, f: nat)
    requires RunOf(ops, states) && i <= |ops|
    requires c in states[i].ctxs && d in states[i].ctxs && c != d
    requires f == states[i].ctxs[c].dir || IsTable(states[i].ctxs[c].space, f)
    ensures f != states[i].ctxs[d].dir && !IsTable(states[i].ctxs[d].space, f)
  {
    RunKeeps(ops, states, i);
    assert SeparateAt(states[i].ctxs, c, d);
    assert Frame(states[i].ctxs[c], f);
  }

  /** The mark `freed` says whether the run has freed a block of the context. */
  lemma {:induction false} FreedExact(ops: seq<Op>, states: seq<World>, i: nat, c: nat)
    requires RunOf(ops, states) && i <= |ops| && c in states[i].ctxs
    ensures states[i].ctxs[c].freed <==> exists k | 0 <= k < i :: ops[k].Free? && ops[k].c == c
  {
    if i == 0 {
      assert Fresh(states[0].ctxs[c]);
    } else {
      assert StepAt(ops, states, i - 1);
      FreedExact(ops, states, i - 1, c);
      if ops[i - 1].Free? && ops[i - 1].c == c { assert states[i].ctxs[c].freed; }
    }
  }

  /**
   In every reachable state, destroying a context neither panics nor frees a page it does not hold if and
   only if the run has freed none of its blocks.
   */
  lemma DestroyRightExactly(ops: seq<Op>, states: seq<World>, i: nat, c: nat)
    requires RunOf(ops, states) && i <= |ops| && c in states[i].ctxs
    ensures Short(states[i].ctxs[c].records)
    ensures Right(states[i].tree, PagesOf(Own(states[i].ctxs[c])), states[i].ctxs[c].records)
            <==> !exists k | 0 <= k < i :: ops[k].Free? && ops[k].c == c
  {
    var w := states[i];
    var x := w.ctxs[c];
    RunKeeps(ops, states, i);
    FreedExact(ops, states, i, c);
    assert Sound(w, c);
    forall p | p in Own(x) ensures p in Live(w.ctxs) { LiveHas(w.ctxs, c, p); }
    DestroyExact(states[0].tree, R.State(w.tree, Live(w.ctxs)), Own(x), x.records);
  }

  /** When all contexts have been destroyed, the tree is the one the run began with. */
  lemma AllDestroyedRestoresTree(ops: seq<Op>, states: seq<World>, i: nat)
    requires RunOf(ops, states) && i <= |ops| && states[i].ctxs == map[]
    ensures states[i].tree == states[0].tree
  {
    RunKeeps(ops, states, i);
    assert Live(states[i].ctxs) == {};
    UndoNothing(states[i].tree);
  }

  // ---------- the code ----------

  /** The heap objects are in state w of a run: the tree, and the records of context c. */
  ghost predicate Stands(ba: BuddyAllocator, ctx: PageMgrCtx, w: World, c: nat)
    reads ba, ba.nodes, ctx
  {
    ba.Valid() && ba.root.model == w.tree && c in w.ctxs && ctx.tracked && Recorded(ctx.allocs, w.ctxs[c].records)
  }

  lemma RecordedMore(allocs: seq<PageInfo>, blocks: seq<Path>, p: Path)
    requires Recorded(allocs, blocks) && |p| <= MAX_ORDER
    ensures Recorded(allocs + [Handle(p)], blocks + [p])
  {
  }

  /** allocate_pages in a run. */
  method AllocateIn(ba: BuddyAllocator, ctx: PageMgrCtx, n: nat, ghost t0: Tree, ghost w: World, ghost c: nat) returns (r: AllocResult)
    requires Stands(ba, ctx, w, c) && Inv(t0, w) && 0 < n < U32
    modifies ba`nodes, ba.nodes`flags, ba.nodes`children, ba.nodes`model, ctx`allocs
    ensures Allowed(w, AllocRam(c, n))
    ensures var w' := Step(w, AllocRam(c, n)); Inv(t0, w') && Stands(ba, ctx, w', c)
    ensures r.Granted? ==> exists p :: p in Step(w, AllocRam(c, n)).ctxs[c].handed && |p| <= MAX_ORDER && r.info == Handle(p)
  {
    r := AllocatePages(ba, ctx, n);
    StepKeeps(t0, w, AllocRam(c, n));
    if r.Granted? {
      ghost var p := GrantRam(w.tree, n).value.0;
      RecordedMore(old(ctx.allocs), w.ctxs[c].records, p);
      assert p in Step(w, AllocRam(c, n)).ctxs[c].handed;
    }
  }

  /** allocate_mapped_pages in a run. */
  method AllocateMappedIn(ba: BuddyAllocator, ctx: PageMgrCtx, kind: bv4, n: nat, ghost t0: Tree, ghost w: World, ghost c: nat) returns (r: AllocResult)
    requires Stands(ba, ctx, w, c) && Inv(t0, w) && n < U32
    modifies ba`nodes, ba.nodes`flags, ba.nodes`children, ba.nodes`model, ctx`allocs
    ensures Allowed(w, AllocMapped(c, kind, n))
    ensures var w' := Step(w, AllocMapped(c, kind, n)); Inv(t0, w') && Stands(ba, ctx, w', c)
    ensures r.Granted? ==> exists p :: p in Step(w, AllocMapped(c, kind, n)).ctxs[c].handed && |p| <= MAX_ORDER && r.info == Handle(p)
  {
    r := AllocateMappedPages(ba, ctx, kind, n);
    StepKeeps(t0, w, AllocMapped(c, kind, n));
    if r.Granted? {
      ghost var p := GrantMapped(w.tree, kind & (PNODE_BLK_MAPPED | PNODE_IO_MAPPED), n).value.0;
      RecordedMore(old(ctx.allocs), w.ctxs[c].records, p);
      assert p in Step(w, AllocMapped(c, kind, n)).ctxs[c].handed;
    }
  }

  /** free_pages of a block a client holds: it succeeds, and no node is split. */
  method FreeIn(ba: BuddyAllocator, ctx: PageMgrCtx, info: PageInfo, ghost t0: Tree, ghost w: World, ghost c: nat, ghost p: Path) returns (r: Err)
    requires Stands(ba, ctx, w, c) && Inv(t0, w) && Allowed(w, Free(c, p)) && |p| <= MAX_ORDER && info == Handle(p)
    modifies ba`nodes, ba.nodes`flags, ba.nodes`children, ba.nodes`model
    ensures r == ESUCCESS && ba.nodes <= old(ba.nodes)
    ensures var w' := Step(w, Free(c, p)); Inv(t0, w') && Stands(ba, ctx, w', c)
  {
    HandleNamesBlock(p);
    LiveHas(w.ctxs, c, p);
    R.ReleaseKeeps(t0, R.State(w.tree, Live(w.ctxs)), p);
    FreeKeeps(t0, w, c, p);
    r := FreePages(ba, info);
  }

  /** destroy_page_mgr_ctx of a context none of whose blocks was freed. */
  method DestroyIn(ba: BuddyAllocator, ctx: PageMgrCtx, ghost t0: Tree, ghost w: World, ghost c: nat) returns (r: Err)
    requires Stands(ba, ctx, w, c) && Inv(t0, w) && Allowed(w, Destroy(c))
    modifies ba`nodes, ba.nodes`flags, ba.nodes`children, ba.nodes`model
    ensures r == ESUCCESS && ba.Valid() && Inv(t0, Step(w, Destroy(c))) && ba.root.model == Step(w, Destroy(c)).tree
  {
    DestroyKeeps(t0, w, c);
    r := DestroyPageMgrCtx(ba, ctx, w.ctxs[c].records);
  }

  /** The map of a context is in memory. */
  ghost predicate InMemory(mem: array2<Word>, x: Ctx)
    reads mem
  {
    Holds(mem, x.dir, x.space)
  }

  /** pmgr_alloc_pages in a run: its own page tables change as they should, those of other contexts not at all. */
  method AllocAndMapIn(ba: BuddyAllocator, ctx: PageMgrCtx, mem: array2<Word>, dir: nat, call: A.Call, ghost t0: Tree, ghost w: World, ghost c: nat)
    returns (r: Err)
    requires Stands(ba, ctx, w, c) && Inv(t0, w) && Allowed(w, AllocAndMap(c, call)) && call.n < U32
    requires dir == w.ctxs[c].dir && InMemory(mem, w.ctxs[c])
    modifies ba`nodes, ba.nodes`flags, ba.nodes`children, ba.nodes`model, ctx`allocs, mem
    ensures var w' := Step(w, AllocAndMap(c, call)); Inv(t0, w') && Stands(ba, ctx, w', c) && InMemory(mem, w'.ctxs[c])
    ensures forall d | d in w.ctxs && d != c && old(InMemory(mem, w.ctxs[d])) :: InMemory(mem, w.ctxs[d])
  {
    ghost var x, w' := w.ctxs[c], Step(w, AllocAndMap(c, call));
    ghost var o := A.PmgrAlloc(w.tree, x.space, call.v, call.n, call.attrs);
    assert Sound(w, c);
    MapKeeps(t0, w, c, call);
    r := A.PmgrAllocPages(ba, ctx, mem, dir, call.v, call.n, call.attrs, x.space);
    if o.data.Some? { RecordedMore(old(ctx.allocs), x.records, o.data.value); }
    if o.tables.Some? { RecordedMore(old(ctx.allocs) + A.Records(o.data), x.records + Blocks(o.data), o.tables.value); }
    forall d | d in w.ctxs && d != c && old(InMemory(mem, w.ctxs[d])) ensures InMemory(mem, w.ctxs[d]) {
      assert SeparateAt(w'.ctxs, c, d) && w'.ctxs[d] == w.ctxs[d];
      MapsApart(w'.ctxs[c], w.ctxs[d]);
      OtherMapStays(mem, dir, o.space, w.ctxs[d].dir, w.ctxs[d].space);
    }
  }

  lemma MapsApart(x: Ctx, y: Ctx)
    requires Separate(x, y)
    ensures y.dir != x.dir && !IsTable(x.space, y.dir)
    ensures forall i | i in y.space.tables :: y.space.tables[i] != x.dir && !IsTable(x.space, y.space.tables[i])
  {
    assert Frame(x, x.dir) && Frame(y, y.dir);
    forall i | i in y.space.tables ensures y.space.tables[i] != x.dir && !IsTable(x.space, y.space.tables[i]) {
      assert IsTable(y.space, y.space.tables[i]);
      assert Frame(y, y.space.tables[i]);
    }
  }
}
