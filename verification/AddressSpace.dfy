/**
 Allocating pages and mapping them: pmgr_alloc_pages joins the page allocator and the page tables.
 A page number doubles as the number of the physical frame.
 */
module AddressSpace {
  import opened Bits
  import opened Options
  import opened PageTree
  import opened Buddy
  import opened Errors
  import opened PageMgr
  import opened Paging
  import PageRuns

  /** What one call of pmgr_alloc_pages does: the tree, the address space and the blocks taken for data and tables. */
  datatype Outcome = Outcome(err: Err, tree: Tree, space: Space, data: Option<Path>, tables: Option<Path>)

  /** The virtual page a request lands on: byte address 0 asks for an identity mapping. */
  function Target(v: nat, p: Path): nat
    requires |p| <= MAX_ORDER
  {
    if v == 0 then Addr(p, MAX_ORDER) else v / PAGE_SIZE
  }

  /** pmgr_alloc_pages on values. When the tables cannot be had, the data block stays taken and unmapped. */
  function PmgrAlloc(t: Tree, s: Space, v: nat, n: nat, a: set<nat>): (o: Outcome)
    requires Fits(t, MAX_ORDER)
    ensures (o.data.Some? ==> |o.data.value| <= MAX_ORDER) && (o.tables.Some? ==> |o.tables.value| <= MAX_ORDER)
  {
    if n == 0 then Outcome(ESUCCESS, t, s, None, None)
    else match GrantRam(t, n)
      case None => Outcome(ENOPAGE, t, s, None, None)
      case Some((p, t1)) =>
        GrantFits(t, n);
        MapBlock(t1, s, Target(v, p), n, a, p)
  }

  /** What is left to do once the data block has been granted. */
  function MapBlock(t: Tree, s: Space, w: nat, n: nat, a: set<nat>, p: Path): (o: Outcome)
    requires Fits(t, MAX_ORDER) && |p| <= MAX_ORDER
    ensures o.data == Some(p) && (o.tables.Some? ==> |o.tables.value| <= MAX_ORDER)
  {
    match GrantTables(t, Used(s, w, n))
    case None => Outcome(ENOPAGE, t, s, Some(p), None)
    case Some((q, t2)) => Outcome(ESUCCESS, t2, MapRange(s, w, Addr(p, MAX_ORDER), a, n, FrameOf(q)), Some(p), q)
  }

  /** Taking the page tables a range needs; none needed, none taken. */
  function GrantTables(t: Tree, need: nat): (r: Option<(Option<Path>, Tree)>)
    requires Fits(t, MAX_ORDER)
    ensures r.Some? && r.value.0.Some? ==> |r.value.0.value| <= MAX_ORDER
  {
    if need == 0 then Some((None, t))
    else match GrantRam(t, need)
      case None => None
      case Some((q, t1)) => Some((Some(q), t1))
  }

  /** The first frame of a block. */
  function FrameOf(block: Option<Path>): nat
    requires block.Some? ==> |block.value| <= MAX_ORDER
  {
    if block.Some? then Addr(block.value, MAX_ORDER) else 0
  }

  lemma GrantFits(t: Tree, n: nat)
    requires Fits(t, MAX_ORDER) && n > 0
    ensures GrantRam(t, n).Some? ==> Fits(GrantRam(t, n).value.1, MAX_ORDER)
  {
    match GrantRam(t, n)
    case None =>
    case Some((p, t1)) =>
      FindSound(t, MAX_ORDER, ReqOrder(n), FREE_RAM, false);
      MarkFits(t, MAX_ORDER, p, Along(t, p).(status := PNODE_USED));
  }

  /** Page x may be handed out. */
  predicate Available(t: Tree, x: nat)
    requires Fits(t, MAX_ORDER)
  {
    FlagsAt(t, MAX_ORDER, x).status & PNODE_FREE != 0
  }

  /** A grant hands out only available pages, enough of them, and makes exactly those unavailable. */
  lemma GrantPages(t: Tree, n: nat, p: Path, t1: Tree)
    requires Fits(t, MAX_ORDER) && n > 0 && GrantRam(t, n) == Some((p, t1))
    ensures Fits(t1, MAX_ORDER) && Addr(p, MAX_ORDER) + n <= Addr(p, MAX_ORDER) + Pow2(MAX_ORDER - |p|) <= PAGES
    ensures forall x: nat | Addr(p, MAX_ORDER) <= x < Addr(p, MAX_ORDER) + Pow2(MAX_ORDER - |p|) :: Available(t, x) && !Available(t1, x)
    ensures forall x: nat | x < PAGES && Available(t1, x) :: Available(t, x)
  {
    GrantBounds(t, n, p, t1);
    forall x: nat | x < PAGES
      ensures InBlock(p, MAX_ORDER, x) ==> Available(t, x) && !Available(t1, x)
      ensures Available(t1, x) ==> Available(t, x)
    {
      GrantPage(t, n, p, t1, x);
    }
  }

  lemma GrantBounds(t: Tree, n: nat, p: Path, t1: Tree)
    requires Fits(t, MAX_ORDER) && n > 0 && GrantRam(t, n) == Some((p, t1))
    ensures Fits(t1, MAX_ORDER) && Addr(p, MAX_ORDER) + n <= Addr(p, MAX_ORDER) + Pow2(MAX_ORDER - |p|) <= PAGES
  {
    GrantFits(t, n);
    ReqOrderIsTight(n);
    AddrBounds(p, MAX_ORDER);
    Pow2_20();
  }

  /** The same of one page. */
  lemma GrantPage(t: Tree, n: nat, p: Path, t1: Tree, x: nat)
    requires Fits(t, MAX_ORDER) && n > 0 && GrantRam(t, n) == Some((p, t1)) && x < PAGES
    ensures Fits(t1, MAX_ORDER)
    ensures InBlock(p, MAX_ORDER, x) ==> Available(t, x) && !Available(t1, x)
    ensures Available(t1, x) ==> Available(t, x)
  {
    GrantFits(t, n);
    FindSound(t, MAX_ORDER, ReqOrder(n), FREE_RAM, false);
    Pow2_20();
    MarkPagesOfBlock(t, MAX_ORDER, p, Along(t, p).(status := PNODE_USED), x);
    if InBlock(p, MAX_ORDER, x) { AlongPages(t, MAX_ORDER, p, x); }
  }

  /** The state of a run on one context: the virtual pages its calls have mapped, and the blocks they were granted. */
  datatype State = State(tree: Tree, space: Space, mine: set<nat>, blocks: set<Path>)

  /** Frame x is in use: the allocator will not hand it out. */
  ghost predicate Held(t: Tree, x: nat) {
    Fits(t, MAX_ORDER) && x < PAGES && !Available(t, x)
  }

  /** Page zero, the directory and every table are in use. */
  ghost predicate TablesHeld(dir: nat, t: Tree, s: Space) {
    && Fits(t, MAX_ORDER) && Distinct(s, dir) && Reachable(s)
    && Held(t, 0) && Held(t, dir)
    && (forall i | i in s.tables :: Held(t, s.tables[i]))
  }

  /** The pages mapped by the run lie on frames of their own, in use, none of them a table. */
  ghost predicate MineApart(dir: nat, t: Tree, s: Space, mine: set<nat>) {
    && (forall v | v in mine ::
          v in s.pages && Held(t, s.pages[v].frame) && s.pages[v].frame != dir && !IsTable(s, s.pages[v].frame))
    && (forall v, w | v in mine && w in mine && v != w :: s.pages[v].frame != s.pages[w].frame)
  }

  /** The pages mapped by the run lie on frames of blocks granted to the context. */
  ghost predicate Owned(s: Space, mine: set<nat>, blocks: set<Path>) {
    forall v | v in mine :: v in s.pages && InLive(blocks, MAX_ORDER, s.pages[v].frame)
  }

  ghost predicate Inv(dir: nat, st: State) {
    TablesHeld(dir, st.tree, st.space) && MineApart(dir, st.tree, st.space, st.mine) && Owned(st.space, st.mine, st.blocks)
  }

  datatype Call = Call(v: nat, n: nat, attrs: set<nat>)

  /** The n numbers from w on. */
  function Span(w: nat, n: nat): (r: set<nat>)
    ensures forall x :: x in r <==> w <= x < w + n
  {
    if n == 0 then {} else Span(w, n - 1) + {w + n - 1}
  }

  /** The virtual pages a successful call maps. */
  function Mapping(c: Call, o: Outcome): set<nat> {
    if o.err == ESUCCESS && o.data.Some? && |o.data.value| <= MAX_ORDER then Span(Target(c.v, o.data.value), c.n) else {}
  }

  /** The blocks a call was granted. */
  function Taken(o: Outcome): set<Path> {
    (if o.data.Some? then {o.data.value} else {}) + (if o.tables.Some? then {o.tables.value} else {})
  }

  function Step(st: State, c: Call): State
    requires Fits(st.tree, MAX_ORDER)
  {
    var o := PmgrAlloc(st.tree, st.space, c.v, c.n, c.attrs);
    State(o.tree, o.space, st.mine + Mapping(c, o), st.blocks + Taken(o))
  }

  /** The client asks for pages it has not mapped before, not past the end of the address space. */
  ghost predicate Allowed(st: State, c: Call)
    requires Fits(st.tree, MAX_ORDER)
  {
    c.v / PAGE_SIZE + c.n <= FRAMES && Mapping(c, PmgrAlloc(st.tree, st.space, c.v, c.n, c.attrs)) !! st.mine
  }

  /** Growing the set of frames in use keeps the invariant. */
  lemma GrantKeeps(dir: nat, st: State, n: nat, p: Path, t1: Tree)
    requires Inv(dir, st) && n > 0 && GrantRam(st.tree, n) == Some((p, t1))
    ensures Inv(dir, State(t1, st.space, st.mine, st.blocks))
  {
    GrantPages(st.tree, n, p, t1);
  }

  /** Frame x is in use in t2 and serves for nothing in st yet. */
  ghost predicate Clear(dir: nat, st: State, t2: Tree, x: nat) {
    && 0 < x && Held(t2, x) && x != dir && !IsTable(st.space, x)
    && forall v | v in st.mine :: v in st.space.pages && st.space.pages[v].frame != x
  }

  /** The frames of a fresh block serve for nothing yet. */
  lemma FreshFrames(dir: nat, st: State, n: nat, p: Path, t1: Tree, x: nat)
    requires Inv(dir, st) && n > 0 && GrantRam(st.tree, n) == Some((p, t1)) && InBlock(p, MAX_ORDER, x)
    ensures Clear(dir, st, t1, x)
  {
    GrantPages(st.tree, n, p, t1);
    assert Available(st.tree, x);
  }

  /** A run of clear frames is spare. */
  lemma ClearIsSpare(dir: nat, st: State, t2: Tree, spare: nat, need: nat)
    requires Inv(dir, st) && spare + need <= FRAMES && (need > 0 ==> 0 < spare)
    requires forall x | spare <= x < spare + need :: Clear(dir, st, t2, x)
    ensures Spare(st.space, dir, spare, need)
  {
    forall i | i in st.space.tables ensures !(spare <= st.space.tables[i] < spare + need) {
      assert IsTable(st.space, st.space.tables[i]);
      assert spare <= st.space.tables[i] < spare + need ==> Clear(dir, st, t2, st.space.tables[i]);
    }
    assert spare <= dir < spare + need ==> Clear(dir, st, t2, dir);
  }

  /** What mapping the range w..w+n to the frames from f on needs: everything involved is clear. */
  ghost predicate Ready(dir: nat, st: State, t2: Tree, w: nat, f: nat, n: nat, spare: nat) {
    var need := Used(st.space, w, n);
    && Inv(dir, st) && w + n <= FRAMES && spare + need <= FRAMES && Span(w, n) !! st.mine
    && Fits(t2, MAX_ORDER) && (forall x: nat | x < PAGES && Available(t2, x) :: Fits(st.tree, MAX_ORDER) && Available(st.tree, x))
    && (forall x | f <= x < f + n :: Clear(dir, st, t2, x))
    && (forall x | spare <= x < spare + need :: Clear(dir, st, t2, x))
    && (need == 0 || (0 < spare && (f + n <= spare || spare + need <= f)))
  }

  lemma StillHeld(dir: nat, st: State, t2: Tree, x: nat)
    requires Held(st.tree, x) && Fits(t2, MAX_ORDER)
    requires forall x: nat | x < PAGES && Available(t2, x) :: Fits(st.tree, MAX_ORDER) && Available(st.tree, x)
    ensures Held(t2, x)
  {
  }

  lemma MapKeepsTables(dir: nat, st: State, t2: Tree, w: nat, f: nat, a: set<nat>, n: nat, spare: nat)
    requires Ready(dir, st, t2, w, f, n, spare)
    ensures TablesHeld(dir, t2, MapRange(st.space, w, f, a, n, spare))
  {
    var need := Used(st.space, w, n);
    ClearIsSpare(dir, st, t2, spare, need);
    MapRangeTables(st.space, w, f, a, n, spare);
    MapRangeDistinct(st.space, dir, w, f, a, n, spare);
    MapRangeReachable(st.space, w, f, a, n, spare);
    var r := MapRange(st.space, w, f, a, n, spare);
    forall i | i in r.tables ensures Held(t2, r.tables[i]) {
      if i in st.space.tables { StillHeld(dir, st, t2, r.tables[i]); } else { assert Clear(dir, st, t2, r.tables[i]); }
    }
    StillHeld(dir, st, t2, 0);
    StillHeld(dir, st, t2, dir);
  }

  /** A frame that was no table and is no spare frame is no table afterwards. */
  lemma NotATable(st: State, w: nat, f: nat, a: set<nat>, n: nat, spare: nat, x: nat)
    requires !IsTable(st.space, x) && !(spare <= x < spare + Used(st.space, w, n))
    ensures !IsTable(MapRange(st.space, w, f, a, n, spare), x)
  {
    MapRangeTables(st.space, w, f, a, n, spare);
    var r := MapRange(st.space, w, f, a, n, spare);
    forall i | i in r.tables ensures r.tables[i] != x {
      assert i in st.space.tables ==> IsTable(st.space, r.tables[i]);
    }
  }

  lemma MapKeepsMine(dir: nat, st: State, t2: Tree, w: nat, f: nat, a: set<nat>, n: nat, spare: nat)
    requires Ready(dir, st, t2, w, f, n, spare)
    ensures MineApart(dir, t2, MapRange(st.space, w, f, a, n, spare), st.mine + Span(w, n))
  {
    var r := MapRange(st.space, w, f, a, n, spare);
    var need := Used(st.space, w, n);
    MapRangePages(st.space, w, f, a, n, spare);
    forall v | v in st.mine + Span(w, n)
      ensures v in r.pages && Held(t2, r.pages[v].frame) && r.pages[v].frame != dir && !IsTable(r, r.pages[v].frame)
    {
      var x := r.pages[v].frame;
      if v in st.mine {
        assert x == st.space.pages[v].frame;
        StillHeld(dir, st, t2, x);
        assert spare <= x < spare + need ==> Clear(dir, st, t2, x);
      } else {
        assert f <= x < f + n && Clear(dir, st, t2, x);
      }
      NotATable(st, w, f, a, n, spare, x);
    }
    forall v, u | v in st.mine + Span(w, n) && u in st.mine + Span(w, n) && v != u
      ensures r.pages[v].frame != r.pages[u].frame
    {
      if v in st.mine && u !in st.mine { assert Clear(dir, st, t2, r.pages[u].frame); }
      if u in st.mine && v !in st.mine { assert Clear(dir, st, t2, r.pages[v].frame); }
    }
  }

  /** Every page mapped so far lies in a block of the context. */
  lemma StepOwned(st: State, c: Call)
    requires Fits(st.tree, MAX_ORDER) && Owned(st.space, st.mine, st.blocks)
    ensures var r := Step(st, c); Owned(r.space, r.mine, r.blocks)
  {
    StepMaps(st, c);
    var r, o := Step(st, c), PmgrAlloc(st.tree, st.space, c.v, c.n, c.attrs);
    forall v | v in r.mine ensures v in r.space.pages && InLive(r.blocks, MAX_ORDER, r.space.pages[v].frame) {
      if v in Mapping(c, o) {
        var p := o.data.value;
        GrantPages(st.tree, c.n, p, GrantRam(st.tree, c.n).value.1);
        assert p in r.blocks && InBlock(p, MAX_ORDER, r.space.pages[v].frame);
      } else {
        var x := st.space.pages[v].frame;
        var b :| b in st.blocks && |b| <= MAX_ORDER && InBlock(b, MAX_ORDER, x);
        assert b in r.blocks;
      }
    }
  }

  /** A page that is newly mapped does not share its frame with any page whose frame was in use. */
  lemma NewFramesFresh(st: State, c: Call, v: nat, u: nat)
    requires Fits(st.tree, MAX_ORDER)
    requires v in Mapping(c, PmgrAlloc(st.tree, st.space, c.v, c.n, c.attrs))
    requires u in st.space.pages && Held(st.tree, st.space.pages[u].frame)
    ensures v in Step(st, c).space.pages && Step(st, c).space.pages[v].frame != st.space.pages[u].frame
  {
    var o := PmgrAlloc(st.tree, st.space, c.v, c.n, c.attrs);
    StepMaps(st, c);
    GrantPages(st.tree, c.n, o.data.value, GrantRam(st.tree, c.n).value.1);
  }

  /** One call keeps the invariant. */
  lemma StepKeeps(dir: nat, st: State, c: Call)
    requires Inv(dir, st) && Allowed(st, c)
    ensures Inv(dir, Step(st, c))
  {
    StepOwned(st, c);
    StepApart(dir, st, c);
  }

  lemma StepApart(dir: nat, st: State, c: Call)
    requires Inv(dir, st) && Allowed(st, c)
    ensures var r := Step(st, c); TablesHeld(dir, r.tree, r.space) && MineApart(dir, r.tree, r.space, r.mine)
  {
    if c.n > 0 && GrantRam(st.tree, c.n).Some? {
      var (p, t1) := GrantRam(st.tree, c.n).value;
      GrantKeeps(dir, st, c.n, p, t1);
      GrantPages(st.tree, c.n, p, t1);
      var f, w := Addr(p, MAX_ORDER), Target(c.v, p);
      var need := Used(st.space, w, c.n);
      var st1 := State(t1, st.space, st.mine, st.blocks);
      forall x | f <= x < f + c.n ensures Clear(dir, st, t1, x) { FreshFrames(dir, st, c.n, p, t1, x); }
      if need == 0 {
        MapKeepsTables(dir, st, t1, w, f, c.attrs, c.n, 0);
        MapKeepsMine(dir, st, t1, w, f, c.attrs, c.n, 0);
      } else if GrantRam(t1, need).Some? {
        var (q, t2) := GrantRam(t1, need).value;
        var spare := Addr(q, MAX_ORDER);
        GrantPages(t1, need, q, t2);
        forall x | spare <= x < spare + need ensures Clear(dir, st, t2, x) { FreshFrames(dir, st1, need, q, t2, x); }
        forall x | f <= x < f + c.n ensures Clear(dir, st, t2, x) { StillHeld(dir, st1, t2, x); }
        TwoGrants(st.tree, c.n, p, t1, need, q, t2);
        MapKeepsTables(dir, st, t2, w, f, c.attrs, c.n, spare);
        MapKeepsMine(dir, st, t2, w, f, c.attrs, c.n, spare);
      } else {
        assert Step(st, c).space == st.space && Step(st, c).tree == t1 && Step(st, c).mine == st.mine;
      }
    } else {
      assert Step(st, c) == st;
    }
  }

  /** Blocks granted one after the other do not overlap. */
  lemma TwoGrants(t: Tree, n: nat, p: Path, t1: Tree, m: nat, q: Path, t2: Tree)
    requires Fits(t, MAX_ORDER) && n > 0 && GrantRam(t, n) == Some((p, t1))
    requires Fits(t1, MAX_ORDER) && m > 0 && GrantRam(t1, m) == Some((q, t2))
    ensures Addr(p, MAX_ORDER) + n <= Addr(q, MAX_ORDER) || Addr(q, MAX_ORDER) + m <= Addr(p, MAX_ORDER)
  {
    GrantPages(t, n, p, t1);
    GrantPages(t1, m, q, t2);
    var a, b := Addr(p, MAX_ORDER), Addr(q, MAX_ORDER);
    var x := if a < b then b else a;
    assert a <= x < a + n ==> !Available(t1, x);
    assert b <= x < b + m ==> Available(t1, x);
  }

  /** Call i of a run. */
  ghost predicate StepAt(calls: seq<Call>, states: seq<State>, i: nat)
    requires i < |calls| < |states|
  {
    Fits(states[i].tree, MAX_ORDER) && Allowed(states[i], calls[i]) && states[i + 1] == Step(states[i], calls[i])
  }

  /** The states of a run of calls on one context. */
  ghost predicate RunOf(st: State, calls: seq<Call>, states: seq<State>) {
    && |states| == |calls| + 1 && states[0] == st
    && forall i: nat {:trigger StepAt(calls, states, i)} | i < |calls| :: StepAt(calls, states, i)
  }

  /**
   Across every run of pmgr_alloc_pages on distinct virtual ranges: distinct virtual pages the run
   mapped translate to distinct frames of blocks granted to the context, and none of them is a page
   table or the directory.
   */
  lemma {:induction false} RunKeepsFramesApart(dir: nat, st: State, calls: seq<Call>, states: seq<State>, i: nat)
    requires TablesHeld(dir, st.tree, st.space) && st.mine == {} && st.blocks == {}
    requires RunOf(st, calls, states) && i <= |calls|
    ensures Inv(dir, states[i])
  {
    if i > 0 {
      RunKeepsFramesApart(dir, st, calls, states, i - 1);
      assert StepAt(calls, states, i - 1);
      StepKeeps(dir, states[i - 1], calls[i - 1]);
    }
  }

  /** One call maps its own range to consecutive frames and leaves every other page as it was. */
  lemma StepMaps(st: State, c: Call)
    requires Fits(st.tree, MAX_ORDER)
    ensures var o := PmgrAlloc(st.tree, st.space, c.v, c.n, c.attrs);
      && (o.err == ESUCCESS && c.n > 0 ==>
            && GrantRam(st.tree, c.n).Some? && o.data == Some(GrantRam(st.tree, c.n).value.0)
            && var w := Target(c.v, o.data.value);
               && forall x | w <= x < w + c.n :: x in o.space.pages && o.space.pages[x] == Page(Addr(o.data.value, MAX_ORDER) + (x - w), c.attrs))
      && (forall x | x in st.space.pages && x !in Mapping(c, o) :: x in o.space.pages && o.space.pages[x] == st.space.pages[x])
      && (o.err != ESUCCESS ==> o.space == st.space)
  {
    if c.n > 0 && GrantRam(st.tree, c.n).Some? {
      GrantFits(st.tree, c.n);
      var (p, t1) := GrantRam(st.tree, c.n).value;
      var f, w := Addr(p, MAX_ORDER), Target(c.v, p);
      var need := Used(st.space, w, c.n);
      MapRangePages(st.space, w, f, c.attrs, c.n, 0);
      if need > 0 && GrantRam(t1, need).Some? {
        MapRangePages(st.space, w, f, c.attrs, c.n, Addr(GrantRam(t1, need).value.0, MAX_ORDER));
      }
    }
  }

  // ---------- where a call maps, and what it takes ----------

  /**
   Where a call maps its pages: from the virtual address asked for on, byte address 0 asking for pages at the
   addresses of their own frames. Nothing else is mapped or changes, and with an error nothing at all.
   */
  lemma CallMaps(t: Tree, s: Space, v: nat, n: nat, a: set<nat>)
    requires Fits(t, MAX_ORDER)
    ensures var o := PmgrAlloc(t, s, v, n, a);
      && (o.err == ESUCCESS && n > 0 ==>
            && o.data.Some? && |o.data.value| <= MAX_ORDER
            && var f := Addr(o.data.value, MAX_ORDER);
               var w := if v == 0 then f else v / 4096;
               && (forall x | w <= x < w + n :: x in o.space.pages && o.space.pages[x] == Page(f + (x - w), a))
               && (forall x | !(w <= x < w + n) :: (x in o.space.pages <==> x in s.pages) && (x in s.pages ==> o.space.pages[x] == s.pages[x])))
      && (o.err != ESUCCESS || n == 0 ==> o.space == s)
  {
    if n > 0 && GrantRam(t, n).Some? {
      GrantFits(t, n);
      var (p, t1) := GrantRam(t, n).value;
      var f := Addr(p, MAX_ORDER);
      var w := if v == 0 then f else v / 4096;
      var need := Used(s, w, n);
      MapRangePages(s, w, f, a, n, 0);
      if need > 0 && GrantRam(t1, need).Some? {
        MapRangePages(s, w, f, a, n, Addr(GrantRam(t1, need).value.0, MAX_ORDER));
      }
    }
  }

  /** The directory entries of the pages from w to w + n that have no page table. */
  ghost function Missing(s: Space, w: nat, n: nat): set<nat> {
    set x: nat | w <= x < w + n && Pd(x) !in s.tables :: Pd(x)
  }

  /** One table is needed for each of them. */
  lemma {:induction false} UsedIsMissing(s: Space, w: nat, n: nat)
    ensures Used(s, w, n) == |Missing(s, w, n)|
  {
    if n > 0 {
      UsedIsMissing(s, w, n - 1);
      UsedStep(s, w, n - 1);
      MissingStep(s, w, n - 1, Pd(w + (n - 1)));
    }
  }

  lemma MissingStep(s: Space, w: nat, n: nat, i: nat)
    requires i == Pd(w + n)
    ensures Missing(s, w, n + 1) == Missing(s, w, n) + if i in s.tables then {} else {i}
    ensures i !in s.tables ==> (i in Missing(s, w, n) <==> n > 0 && Pd(w + (n - 1)) == i)
  {
    if i !in s.tables && !(n > 0 && Pd(w + (n - 1)) == i) { NotYetMissing(s, w, n, i); }
  }

  /** An entry the pages before have not reached. */
  lemma NotYetMissing(s: Space, w: nat, n: nat, i: nat)
    requires i == Pd(w + n) && (n > 0 ==> Pd(w + (n - 1)) != i)
    ensures i !in Missing(s, w, n)
  {
    forall x: nat | w <= x < w + n ensures Pd(x) != i {
      PdMono(x, w + (n - 1));
      PdMono(w + (n - 1), w + n);
    }
  }

  /** Some block of order m whose pages are free RAM. */
  ghost predicate HasRoom(t: Tree, n: nat)
    requires Fits(t, MAX_ORDER) && n > 0
  {
    exists q :: Candidate(t, MAX_ORDER, q, ReqOrder(n), FREE_RAM)
  }

  /**
   A call succeeds exactly if there is a block for its pages and then, if page tables are missing, one for
   these. The blocks it takes are the least powers of two that hold the pages and the missing tables; without
   missing tables none is taken for them.
   */
  lemma CallTakes(t: Tree, s: Space, v: nat, n: nat, a: set<nat>)
    requires Fits(t, MAX_ORDER) && n > 0
    ensures var o := PmgrAlloc(t, s, v, n, a);
      && (o.err == ESUCCESS || o.err == ENOPAGE) && (o.data.Some? <==> HasRoom(t, n)) && Fits(o.tree, MAX_ORDER)
      && (o.data.None? ==> o.err == ENOPAGE && o.tables.None? && o.tree == t)
      && (o.data.Some? ==>
            && |o.data.value| <= MAX_ORDER && n <= Pow2(MAX_ORDER - |o.data.value|) < 2 * n
            && var missing := |Missing(s, if v == 0 then Addr(o.data.value, MAX_ORDER) else v / 4096, n)|;
               && (o.tables.Some? ==>
                     missing > 0 && |o.tables.value| <= MAX_ORDER && missing <= Pow2(MAX_ORDER - |o.tables.value|) < 2 * missing)
               && (o.err == ESUCCESS <==> missing == 0 || o.tables.Some?)
               && (missing > 0 ==> (o.tables.Some? <==> Fits(GrantRam(t, n).value.1, MAX_ORDER) && HasRoom(GrantRam(t, n).value.1, missing))))
  {
    RoomIsGrant(t, n);
    if GrantRam(t, n).Some? {
      var (p, t1) := GrantRam(t, n).value;
      GrantFits(t, n);
      UsedIsMissing(s, Target(v, p), n);
      if Used(s, Target(v, p), n) > 0 {
        RoomIsGrant(t1, Used(s, Target(v, p), n));
        GrantFits(t1, Used(s, Target(v, p), n));
      }
    }
  }

  /** A block is granted exactly if there is room, and it is as small as it can be. */
  lemma RoomIsGrant(t: Tree, n: nat)
    requires Fits(t, MAX_ORDER) && n > 0
    ensures GrantRam(t, n).Some? <==> HasRoom(t, n)
    ensures GrantRam(t, n).Some? ==> var p := GrantRam(t, n).value.0; |p| <= MAX_ORDER && n <= Pow2(MAX_ORDER - |p|) < 2 * n
  {
    ReqOrderIsTight(n);
    FindComplete(t, MAX_ORDER, ReqOrder(n), FREE_RAM, false);
  }

  // ---------- the code ----------

  function Records(block: Option<Path>): seq<PageInfo>
    requires block.Some? ==> |block.value| <= MAX_ORDER
  {
    if block.Some? then [Handle(block.value)] else []
  }

  /** Table frames taken from a fresh block are spare. */
  lemma FreshIsSpare(dir: nat, t: Tree, s: Space, n: nat, p: Path, t1: Tree)
    requires TablesHeld(dir, t, s) && n > 0 && GrantRam(t, n) == Some((p, t1))
    ensures Spare(s, dir, Addr(p, MAX_ORDER), n)
  {
    var st := State(t, s, {}, {});
    GrantPages(t, n, p, t1);
    forall x | Addr(p, MAX_ORDER) <= x < Addr(p, MAX_ORDER) + n ensures Clear(dir, st, t1, x) { FreshFrames(dir, st, n, p, t1, x); }
    assert Inv(dir, State(t1, s, {}, {})) by { GrantKeeps(dir, st, n, p, t1); }
    ClearIsSpare(dir, st, t1, Addr(p, MAX_ORDER), n);
  }

  lemma {:induction false} UsedBound(s: Space, v: nat, n: nat)
    ensures Used(s, v, n) <= n
  {
    if n > 0 { UsedBound(s, v, n - 1); }
  }

  /** A grant leaves the page tables of the context alone and stays inside physical memory. */
  lemma StillSound(dir: nat, t: Tree, s: Space, n: nat, p: Path, t1: Tree)
    requires TablesHeld(dir, t, s) && n > 0 && GrantRam(t, n) == Some((p, t1))
    ensures TablesHeld(dir, t1, s) && Addr(p, MAX_ORDER) + n <= FRAMES
  {
    GrantPages(t, n, p, t1);
    GrantKeeps(dir, State(t, s, {}, {}), n, p, t1);
  }

  /** The page tables a range needs are taken from the allocator. */
  method TakeTables(ba: BuddyAllocator, ctx: PageMgrCtx, need: nat, ghost dir: nat, ghost s: Space) returns (r: Err, tables: nat)
    requires ba.Valid() && ctx.tracked && need < U32 && TablesHeld(dir, ba.root.model, s)
    modifies ba`nodes, ba.nodes`flags, ba.nodes`children, ba.nodes`model, ctx`allocs
    ensures ba.Valid() && ba.root == old(ba.root) && fresh(ba.nodes - old(ba.nodes))
    ensures match GrantTables(old(ba.root.model), need)
      case None => r == ENOPAGE && ba.root.model == old(ba.root.model) && ctx.allocs == old(ctx.allocs)
      case Some((q, t)) =>
        && r == ESUCCESS && ba.root.model == t && ctx.allocs == old(ctx.allocs) + Records(q)
        && tables == FrameOf(q) && Spare(s, dir, tables, need)
  {
    ghost var t := ba.root.model;
    if need == 0 { return ESUCCESS, 0; }
    var info := AllocatePages(ba, ctx, need);
    if info.Failed? { return info.err, 0; }
    FreshIsSpare(dir, t, s, need, GrantRam(t, need).value.0, ba.root.model);
    HandleFrame(GrantRam(t, need).value.0);
    r, tables := ESUCCESS, info.info.memory / X86_PAGE_SIZE;
  }

  /** The second half of pmgr_alloc_pages: take the page tables the range needs and map it. */
  method MapGranted(ba: BuddyAllocator, ctx: PageMgrCtx, mem: array2<Word>, dir: nat, w: nat, f: nat, n: nat, attrs: set<nat>, ghost s: Space, ghost p: Path)
    returns (r: Err)
    requires ba.Valid() && ctx.tracked && w + n <= FRAMES && f + n <= FRAMES
    requires Holds(mem, dir, s) && TablesHeld(dir, ba.root.model, s) && |p| <= MAX_ORDER && f == Addr(p, MAX_ORDER)
    modifies ba`nodes, ba.nodes`flags, ba.nodes`children, ba.nodes`model, ctx`allocs, mem
    ensures ba.Valid() && ba.root == old(ba.root) && fresh(ba.nodes - old(ba.nodes))
    ensures var o := MapBlock(old(ba.root.model), s, w, n, attrs, p);
      && r == o.err && ba.root.model == o.tree && Holds(mem, dir, o.space) && OnlyMap(mem, dir, o.space)
      && ctx.allocs == old(ctx.allocs) + Records(o.tables)
  {
    UsedBound(s, w, n);
    ghost var o := MapBlock(ba.root.model, s, w, n, attrs, p);
    var need := GetPageCount(mem, dir, w, n, s);
    var tables;
    r, tables := TakeTables(ba, ctx, need, dir, s);
    assert r == o.err && ba.root.model == o.tree && ctx.allocs == old(ctx.allocs) + Records(o.tables);
    if r == ESUCCESS { r := MapPages(mem, dir, w, f, n, attrs, tables, need, s); }
  }

  /** pmgr_alloc_pages, for a context with a heap (the records would alias without one). */
  method PmgrAllocPages(ba: BuddyAllocator, ctx: PageMgrCtx, mem: array2<Word>, dir: nat, vaddress: nat, pageCnt: nat, attrs: set<nat>, ghost s: Space)
    returns (r: Err)
    requires ba.Valid() && ctx.tracked && pageCnt < U32 && vaddress / PAGE_SIZE + pageCnt <= FRAMES
    requires Holds(mem, dir, s) && TablesHeld(dir, ba.root.model, s)
    modifies ba`nodes, ba.nodes`flags, ba.nodes`children, ba.nodes`model, ctx`allocs, mem
    ensures ba.Valid() && ba.root == old(ba.root) && fresh(ba.nodes - old(ba.nodes))
    ensures Fits(old(ba.root.model), MAX_ORDER)
    ensures var o := PmgrAlloc(old(ba.root.model), s, vaddress, pageCnt, attrs);
      && r == o.err && ba.root.model == o.tree && Holds(mem, dir, o.space) && OnlyMap(mem, dir, o.space)
      && ctx.allocs == old(ctx.allocs) + Records(o.data) + Records(o.tables)
  {
    ghost var t := ba.root.model;
    if pageCnt == 0 { return ESUCCESS; }
    var pages := AllocatePages(ba, ctx, pageCnt);
    if pages.Failed? { return pages.err; }
    ghost var p, t1 := GrantRam(t, pageCnt).value.0, ba.root.model;
    StillSound(dir, t, s, pageCnt, p, t1);
    HandleFrame(p);
    var f := pages.info.memory / X86_PAGE_SIZE;
    var w := if vaddress == 0 then f else vaddress / PAGE_SIZE;
    assert PmgrAlloc(t, s, vaddress, pageCnt, attrs) == MapBlock(t1, s, w, pageCnt, attrs, p);
    r := MapGranted(ba, ctx, mem, dir, w, f, pageCnt, attrs, s, p);
  }
}
