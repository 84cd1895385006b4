/**
 Runs of page allocations and frees. A state is the buddy tree and the set of live blocks; a
 step is one call of allocate_pages, allocate_mapped_pages or free_pages on a live handle.
 */
module PageRuns {
  import opened Bits
  import opened Options
  import opened PageTree
  import opened Buddy
  import opened Errors
  import opened PageMgr

  datatype Op =
    | AllocRam(n: nat)
    | AllocMapped(kind: bv4, n: nat)
    | Free(block: Path)

  datatype State = State(tree: Tree, live: set<Path>)

  /** Failed and rejected calls change nothing; so does a free of a block that is not live, which no client makes. */
  function Step(s: State, op: Op): State
    requires Fits(s.tree, MAX_ORDER)
  {
    match op
    case AllocRam(n) =>
      if n == 0 then s
      else match GrantRam(s.tree, n) { case None => s case Some((p, t)) => State(t, s.live + {p}) }
    case AllocMapped(kind, n) =>
      var mapping := kind & (PNODE_BLK_MAPPED | PNODE_IO_MAPPED);
      if n == 0 || mapping == 0 then s
      else match GrantMapped(s.tree, mapping, n) { case None => s case Some((p, t)) => State(t, s.live + {p}) }
    case Free(p) =>
      if p in s.live && Covers(s.tree, p) then State(Release(s.tree, p), s.live - {p}) else s
  }

  /** Leaves with the FREE bit carry exactly FREE|ON_RAM or FREE|UNMAPPED, as every caller writes them. */
  predicate CleanFree(t: Tree) {
    match t
    case Leaf(f) => f.status & PNODE_FREE == 0 || f == FREE_RAM || f == FREE_UNMAPPED
    case Branch(l, r) => CleanFree(l) && CleanFree(r)
  }

  /** What holds before, during and after a run that started from t0 with nothing live. */
  ghost predicate Inv(t0: Tree, s: State) {
    && Fits(s.tree, MAX_ORDER) && Normal(s.tree) && CleanFree(s.tree)
    && LiveOk(s.tree, s.live) && (forall p | p in s.live :: |p| <= MAX_ORDER)
    && Undo(s.tree, s.live) == t0
  }

  lemma {:induction false} CleanMark(t: Tree, p: Path, f: Flags)
    requires CleanFree(t) && CleanFree(Leaf(f))
    ensures CleanFree(Mark(t, p, f))
  {
    if p != [] { CleanMark(Child(Split(t), p[0]), p[1..], f); }
  }

  lemma {:induction false} CleanAlong(t: Tree, p: Path)
    requires CleanFree(t) && Covers(t, p)
    ensures CleanFree(Leaf(Along(t, p)))
  {
    if t.Branch? { CleanAlong(Child(t, p[0]), p[1..]); }
  }

  /** Granting: a fresh block of the right size, aligned, out of pages that were FREE with the wanted mapping. */
  ghost predicate FreshBlock(s: State, p: Path, n: nat, was: Flags)
    requires Fits(s.tree, MAX_ORDER) && |p| <= MAX_ORDER
  {
    var a, size := Addr(p, MAX_ORDER), Pow2(MAX_ORDER - |p|);
    && p !in s.live && n <= size < 2 * n && a % size == 0 && a + size <= PAGES
    && (forall x: nat | a <= x < a + size :: FlagsAt(s.tree, MAX_ORDER, x) == was)
    && (forall x: nat | a <= x < a + size :: !InLive(s.live, MAX_ORDER, x))
  }

  lemma GrantFresh(t0: Tree, s: State, p: Path, n: nat, was: Flags)
    requires Inv(t0, s) && n > 0 && Covers(s.tree, p) && Along(s.tree, p) == was
    requires was.status != PNODE_USED && |p| + ReqOrder(n) == MAX_ORDER && p !in s.live
    ensures FreshBlock(s, p, n, was)
  {
    ReqOrderIsTight(n);
    AddrBounds(p, MAX_ORDER);
    Pow2_20();
    forall x: nat | Addr(p, MAX_ORDER) <= x < Addr(p, MAX_ORDER) + Pow2(MAX_ORDER - |p|)
      ensures FlagsAt(s.tree, MAX_ORDER, x) == was && !InLive(s.live, MAX_ORDER, x)
    {
      AlongPages(s.tree, MAX_ORDER, p, x);
      UndoPages(s.tree, s.live, MAX_ORDER, x);
    }
  }

  /** One grant keeps the invariant and hands out a fresh block. */
  lemma GrantKeeps(t0: Tree, s: State, want: Flags, rev: bool, n: nat, p: Path, f: Flags)
    requires Inv(t0, s) && n > 0 && (want == FREE_RAM || want == FREE_UNMAPPED)
    requires Find(s.tree, MAX_ORDER, ReqOrder(n), want, rev) == Some(p)
    requires f.status == PNODE_USED && Freed(f) == want
    ensures |p| <= MAX_ORDER && Covers(s.tree, p) && Along(s.tree, p) == want && FreshBlock(s, p, n, want)
    ensures Inv(t0, State(Mark(s.tree, p, f), s.live + {p}))
  {
    FindSound(s.tree, MAX_ORDER, ReqOrder(n), want, rev);
    CleanAlong(s.tree, p);
    MatchesExactly(Along(s.tree, p), want);
    UndoGrant(s.tree, s.live, p, f);
    GrantFresh(t0, s, p, n, want);
    MarkFits(s.tree, MAX_ORDER, p, f);
    MarkNormal(s.tree, p, f);
    CleanMark(s.tree, p, f);
  }

  lemma MatchesExactly(f: Flags, want: Flags)
    requires CleanFree(Leaf(f)) && Match(f, want) && (want == FREE_RAM || want == FREE_UNMAPPED)
    ensures f == want
  {
    assert f.status & want.status & PNODE_FREE == f.status & PNODE_FREE;
  }

  /** A live block is a leaf, so freeing it splits nothing; it succeeds and keeps the invariant. */
  lemma ReleaseKeeps(t0: Tree, s: State, p: Path)
    requires Inv(t0, s) && p in s.live
    ensures Covers(s.tree, p) && Along(s.tree, p).status == PNODE_USED
    ensures Has(s.tree, p) && FreeBlock(s.tree, p) == (ESUCCESS, Release(s.tree, p))
    ensures Inv(t0, State(Release(s.tree, p), s.live - {p}))
  {
    LiveLeaf(s.tree, s.live, p);
    UndoFree(s.tree, s.live, p);
    LeafAlong(s.tree, p);
    FoundInLeaf(s.tree, p);
    var f := Freed(Along(s.tree, p));
    MarkFits(s.tree, MAX_ORDER, p, f);
    MarkNormal(s.tree, p, f);
    CleanMark(s.tree, p, f);
  }

  lemma StepKeeps(t0: Tree, s: State, op: Op)
    requires Inv(t0, s)
    ensures Inv(t0, Step(s, op))
  {
    match op
    case AllocRam(n) =>
      if n > 0 {
        match Find(s.tree, MAX_ORDER, ReqOrder(n), FREE_RAM, false)
        case None =>
        case Some(p) =>
          FindSound(s.tree, MAX_ORDER, ReqOrder(n), FREE_RAM, false);
          CleanAlong(s.tree, p);
          MatchesExactly(Along(s.tree, p), FREE_RAM);
          GrantKeeps(t0, s, FREE_RAM, false, n, p, FREE_RAM.(status := PNODE_USED));
      }
    case AllocMapped(kind, n) =>
      var mapping := kind & (PNODE_BLK_MAPPED | PNODE_IO_MAPPED);
      if n > 0 && mapping != 0 {
        match Find(s.tree, MAX_ORDER, ReqOrder(n), FREE_UNMAPPED, true)
        case None =>
        case Some(p) =>
          assert mapping != PNODE_ON_RAM;
          GrantKeeps(t0, s, FREE_UNMAPPED, true, n, p, Flags(PNODE_USED, mapping));
      }
    case Free(p) =>
      if p in s.live { ReleaseKeeps(t0, s, p); }
  }

  /** Step i of a run. */
  ghost predicate StepAt(ops: seq<Op>, states: seq<State>, i: nat)
    requires i < |ops| < |states|
  {
    Fits(states[i].tree, MAX_ORDER) && states[i + 1] == Step(states[i], ops[i])
  }

  /** The states of a run. */
  ghost predicate RunOf(s0: State, ops: seq<Op>, states: seq<State>) {
    && |states| == |ops| + 1 && states[0] == s0
    && forall i: nat {:trigger StepAt(ops, states, i)} | i < |ops| :: StepAt(ops, states, i)
  }

  lemma {:induction false} RunKeeps(t0: Tree, ops: seq<Op>, states: seq<State>, i: nat)
    requires Fits(t0, MAX_ORDER) && Normal(t0) && CleanFree(t0)
    requires RunOf(State(t0, {}), ops, states) && i <= |ops|
    ensures Inv(t0, states[i])
  {
    if i == 0 {
      UndoNothing(t0);
      NothingLive(t0);
    } else {
      RunKeeps(t0, ops, states, i - 1);
      assert StepAt(ops, states, i - 1);
      StepKeeps(t0, states[i - 1], ops[i - 1]);
    }
  }

  lemma {:induction false} NothingLive(t: Tree)
    ensures LiveOk(t, {})
  {
    assert Below({}, false) == {} && Below({}, true) == {};
    if t.Branch? {
      NothingLive(t.left);
      NothingLive(t.right);
    }
  }

  // ---------- what a run guarantees ----------

  /**
   Live blocks are USED leaves, pairwise disjoint; a page outside them has the flags it started
   with and a page inside started FREE. Nothing else in memory is USED that was not so at first.
   */
  lemma LiveBlocksAreTheRunsUsedPages(t0: Tree, ops: seq<Op>, states: seq<State>, i: nat)
    requires Fits(t0, MAX_ORDER) && Normal(t0) && CleanFree(t0)
    requires RunOf(State(t0, {}), ops, states) && i <= |ops|
    ensures var s := states[i];
      && (forall p | p in s.live :: |p| <= MAX_ORDER && Has(s.tree, p) && At(s.tree, p).Leaf? && At(s.tree, p).flags.status == PNODE_USED)
      && (forall p, q, x: nat | p in s.live && q in s.live && p != q :: !(InBlock(p, MAX_ORDER, x) && InBlock(q, MAX_ORDER, x)))
      && Fits(s.tree, MAX_ORDER)
      && (forall x: nat | x < PAGES ::
            if InLive(s.live, MAX_ORDER, x)
            then FlagsAt(t0, MAX_ORDER, x).status == PNODE_FREE && FlagsAt(s.tree, MAX_ORDER, x).status == PNODE_USED
            else FlagsAt(s.tree, MAX_ORDER, x) == FlagsAt(t0, MAX_ORDER, x))
  {
    var s := states[i];
    RunKeeps(t0, ops, states, i);
    Pow2_20();
    forall p | p in s.live ensures Has(s.tree, p) && At(s.tree, p).Leaf? && At(s.tree, p).flags.status == PNODE_USED {
      LiveLeaf(s.tree, s.live, p);
    }
    forall p, q, x: nat | p in s.live && q in s.live && p != q
      ensures !(InBlock(p, MAX_ORDER, x) && InBlock(q, MAX_ORDER, x))
    {
      LiveDisjoint(t0, s, p, q, x);
    }
    forall x: nat | x < PAGES
      ensures if InLive(s.live, MAX_ORDER, x)
        then FlagsAt(t0, MAX_ORDER, x).status == PNODE_FREE && FlagsAt(s.tree, MAX_ORDER, x).status == PNODE_USED
        else FlagsAt(s.tree, MAX_ORDER, x) == FlagsAt(t0, MAX_ORDER, x)
    {
      UndoPages(s.tree, s.live, MAX_ORDER, x);
    }
  }

  /** Live blocks do not overlap. */
  lemma LiveDisjoint(t0: Tree, s: State, p: Path, q: Path, x: nat)
    requires Inv(t0, s) && p in s.live && q in s.live && p != q
    ensures !(InBlock(p, MAX_ORDER, x) && InBlock(q, MAX_ORDER, x))
  {
    LiveLeaf(s.tree, s.live, p);
    LiveLeaf(s.tree, s.live, q);
    LeavesNotNested(s.tree, p, q);
    LeavesNotNested(s.tree, q, p);
    BlocksDisjoint(p, q, MAX_ORDER, x);
  }

  lemma {:induction false} LeavesNotNested(t: Tree, p: Path, q: Path)
    requires Has(t, p) && Has(t, q) && At(t, p).Leaf? && p != q
    ensures !(p <= q)
  {
    if p != [] && q != [] && p[0] == q[0] {
      assert p == [p[0]] + p[1..] && q == [q[0]] + q[1..];
      LeavesNotNested(Child(t, p[0]), p[1..], q[1..]);
    }
  }

  /** Whatever the order of allocations and frees, once nothing is live the tree is the one the run began with. */
  lemma AllFreedRestoresTree(t0: Tree, ops: seq<Op>, states: seq<State>, i: nat)
    requires Fits(t0, MAX_ORDER) && Normal(t0) && CleanFree(t0)
    requires RunOf(State(t0, {}), ops, states) && i <= |ops| && states[i].live == {}
    ensures states[i].tree == t0
  {
    RunKeeps(t0, ops, states, i);
    UndoNothing(states[i].tree);
  }

  /** Every block granted during a run is fresh, and freeing it at once gives back the very same state. */
  lemma GrantThenFree(t0: Tree, ops: seq<Op>, states: seq<State>, i: nat, n: nat)
    requires Fits(t0, MAX_ORDER) && Normal(t0) && CleanFree(t0)
    requires RunOf(State(t0, {}), ops, states) && i <= |ops| && n > 0
    ensures Fits(states[i].tree, MAX_ORDER)
    ensures match GrantRam(states[i].tree, n)
      case None => forall q :: !Candidate(states[i].tree, MAX_ORDER, q, ReqOrder(n), FREE_RAM)
      case Some((p, t)) =>
        && FreshBlock(states[i], p, n, FREE_RAM)
        && Covers(t, p) && Release(t, p) == states[i].tree
        && (forall q | Candidate(states[i].tree, MAX_ORDER, q, ReqOrder(n), FREE_RAM) :: Addr(p, MAX_ORDER) <= Addr(q, MAX_ORDER))
  {
    var s := states[i];
    RunKeeps(t0, ops, states, i);
    FindComplete(s.tree, MAX_ORDER, ReqOrder(n), FREE_RAM, false);
    match GrantRam(s.tree, n)
    case None =>
    case Some((p, t)) =>
      FindSound(s.tree, MAX_ORDER, ReqOrder(n), FREE_RAM, false);
      CleanAlong(s.tree, p);
      MatchesExactly(Along(s.tree, p), FREE_RAM);
      var used := FREE_RAM.(status := PNODE_USED);
      GrantKeeps(t0, s, FREE_RAM, false, n, p, used);
      MarkedLeaf(s.tree, p, used);
      LeafAlong(t, p);
      MarkUndone(s.tree, p, used);
      forall q | Candidate(s.tree, MAX_ORDER, q, ReqOrder(n), FREE_RAM) ensures Addr(p, MAX_ORDER) <= Addr(q, MAX_ORDER) {
        FindFirst(s.tree, MAX_ORDER, ReqOrder(n), FREE_RAM, false, q);
        LowEnd(p, LeafDepth(s.tree, p), MAX_ORDER);
      }
  }

  /** A path that only turns left after depth d starts where its prefix starts. */
  lemma {:induction false} LowEnd(p: Path, d: nat, k: nat)
    requires d <= |p| <= k && forall i | d <= i < |p| :: !p[i]
    ensures Addr(p, k) == Addr(p[..d], k)
  {
    if p != [] {
      var e := if d == 0 then 0 else d - 1;
      forall i | e <= i < |p[1..]| ensures !p[1..][i] { assert p[1..][i] == p[i + 1]; }
      LowEnd(p[1..], e, k - 1);
      if d > 0 { assert p[..d][1..] == p[1..][..d - 1]; }
      else { assert p[1..][..0] == []; }
    }
  }

  /** The mapping of a request is what it has of the two mapped kinds, and nothing else. */
  lemma KindBits(kind: bv4)
    ensures var m := kind & (PNODE_BLK_MAPPED | PNODE_IO_MAPPED);
      && (m & PNODE_BLK_MAPPED != 0 <==> kind & PNODE_BLK_MAPPED != 0) && (m & PNODE_IO_MAPPED != 0 <==> kind & PNODE_IO_MAPPED != 0)
      && m & (PNODE_UNMAPPED | PNODE_ON_RAM) == 0 && (m == 0 <==> kind & PNODE_BLK_MAPPED == 0 && kind & PNODE_IO_MAPPED == 0)
  {
  }

  /** The pages of block p are USED with the mapped kinds asked for. */
  ghost predicate Carries(t: Tree, p: Path, kind: bv4) {
    Fits(t, MAX_ORDER) && |p| <= MAX_ORDER
    && forall x: nat {:trigger FlagsAt(t, MAX_ORDER, x)} | x < PAGES && InBlock(p, MAX_ORDER, x) ::
         var f := FlagsAt(t, MAX_ORDER, x);
         && f.status == PNODE_USED && f.mapping & (PNODE_UNMAPPED | PNODE_ON_RAM) == 0
         && (f.mapping & PNODE_BLK_MAPPED != 0 <==> kind & PNODE_BLK_MAPPED != 0)
         && (f.mapping & PNODE_IO_MAPPED != 0 <==> kind & PNODE_IO_MAPPED != 0)
  }

  /**
   Over every run: a request for mapped memory that names neither kind, or no pages, changes nothing; otherwise it
   changes nothing exactly if no free unmapped leaf is large enough, and else adds a block whose pages carry the
   kinds asked for.
   */
  lemma MappedCarries(t0: Tree, ops: seq<Op>, states: seq<State>, i: nat)
    requires Fits(t0, MAX_ORDER) && Normal(t0) && CleanFree(t0)
    requires RunOf(State(t0, {}), ops, states) && i < |ops| && ops[i].AllocMapped?
    ensures var s, r, kind, n := states[i], states[i + 1], ops[i].kind, ops[i].n;
      if n == 0 || (kind & PNODE_BLK_MAPPED == 0 && kind & PNODE_IO_MAPPED == 0) then r == s
      else if forall q :: !Candidate(s.tree, MAX_ORDER, q, ReqOrder(n), FREE_UNMAPPED) then r == s
      else exists p :: p !in s.live && r.live == s.live + {p} && Carries(r.tree, p, kind)
  {
    RunKeeps(t0, ops, states, i);
    RunKeeps(t0, ops, states, i + 1);
    assert StepAt(ops, states, i);
    KindBits(ops[i].kind);
    if ops[i].n > 0 && ops[i].kind & (PNODE_BLK_MAPPED | PNODE_IO_MAPPED) != 0 { MappedStep(t0, states[i], ops[i].kind, ops[i].n); }
  }

  lemma MappedStep(t0: Tree, s: State, kind: bv4, n: nat)
    requires Inv(t0, s) && n > 0 && kind & (PNODE_BLK_MAPPED | PNODE_IO_MAPPED) != 0
    ensures var r := Step(s, AllocMapped(kind, n));
      if forall q :: !Candidate(s.tree, MAX_ORDER, q, ReqOrder(n), FREE_UNMAPPED) then r == s
      else exists p :: p !in s.live && r.live == s.live + {p} && Carries(r.tree, p, kind)
  {
    var m := kind & (PNODE_BLK_MAPPED | PNODE_IO_MAPPED);
    KindBits(kind);
    FindComplete(s.tree, MAX_ORDER, ReqOrder(n), FREE_UNMAPPED, true);
    match GrantMapped(s.tree, m, n)
    case None =>
    case Some((p, t)) =>
      GrantKeeps(t0, s, FREE_UNMAPPED, true, n, p, Flags(PNODE_USED, m));
      forall x: nat | x < PAGES && InBlock(p, MAX_ORDER, x) ensures FlagsAt(t, MAX_ORDER, x) == Flags(PNODE_USED, m) {
        MappedGranted(s.tree, m, n, x);
      }
      assert Carries(t, p, kind);
  }

  /** The same for memory that is not RAM, which is searched from the top. */
  lemma GrantMappedThenFree(t0: Tree, ops: seq<Op>, states: seq<State>, i: nat, mapping: bv4, n: nat)
    requires Fits(t0, MAX_ORDER) && Normal(t0) && CleanFree(t0)
    requires RunOf(State(t0, {}), ops, states) && i <= |ops| && n > 0
    requires mapping & (PNODE_BLK_MAPPED | PNODE_IO_MAPPED) == mapping != 0
    ensures Fits(states[i].tree, MAX_ORDER)
    ensures match GrantMapped(states[i].tree, mapping, n)
      case None => forall q :: !Candidate(states[i].tree, MAX_ORDER, q, ReqOrder(n), FREE_UNMAPPED)
      case Some((p, t)) =>
        && FreshBlock(states[i], p, n, FREE_UNMAPPED)
        && Covers(t, p) && Release(t, p) == states[i].tree
        && (forall q | Candidate(states[i].tree, MAX_ORDER, q, ReqOrder(n), FREE_UNMAPPED) ::
              EndOf(q, MAX_ORDER) <= EndOf(p, MAX_ORDER))
  {
    var s, m := states[i], ReqOrder(n);
    RunKeeps(t0, ops, states, i);
    FindComplete(s.tree, MAX_ORDER, m, FREE_UNMAPPED, true);
    match GrantMapped(s.tree, mapping, n)
    case None =>
    case Some((p, t)) =>
      var used := Flags(PNODE_USED, mapping);
      assert mapping != PNODE_ON_RAM;
      GrantKeeps(t0, s, FREE_UNMAPPED, true, n, p, used);
      FindSound(s.tree, MAX_ORDER, m, FREE_UNMAPPED, true);
      MarkedLeaf(s.tree, p, used);
      LeafAlong(t, p);
      MarkUndone(s.tree, p, used);
      forall q | Candidate(s.tree, MAX_ORDER, q, m, FREE_UNMAPPED)
        ensures EndOf(q, MAX_ORDER) <= EndOf(p, MAX_ORDER)
      {
        HighestCandidate(s.tree, MAX_ORDER, m, FREE_UNMAPPED, p, q);
      }
  }

  /** No candidate ends after the block a search from the top returns. */
  lemma HighestCandidate(t: Tree, k: nat, m: nat, want: Flags, p: Path, q: Path)
    requires Fits(t, k) && Find(t, k, m, want, true) == Some(p) && Candidate(t, k, q, m, want)
    ensures |p| <= k && EndOf(q, k) <= EndOf(p, k)
  {
    FindSound(t, k, m, want, true);
    FindFirst(t, k, m, want, true, q);
    EndsLast(t, k, p, p[..LeafDepth(t, p)], q);
  }

  lemma EndsLast(t: Tree, k: nat, p: Path, a: Path, q: Path)
    requires |p| <= k && |q| <= k && a <= p && forall i | |a| <= i < |p| :: p[i]
    requires Has(t, a) && At(t, a).Leaf? && Has(t, q) && At(t, q).Leaf? && Addr(q, k) <= Addr(a, k)
    ensures EndOf(q, k) <= EndOf(p, k)
  {
    assert p[..|a|] == a;
    HighEnd(p, |a|, k);
    LeafOrder(t, k, q, a);
  }

  /** A path that only turns right after depth d ends where its prefix ends. */
  lemma {:induction false} HighEnd(p: Path, d: nat, k: nat)
    requires d <= |p| <= k && forall i | d <= i < |p| :: p[i]
    ensures EndOf(p, k) == EndOf(p[..d], k)
  {
    if p != [] {
      var e := if d == 0 then 0 else d - 1;
      forall i | e <= i < |p[1..]| ensures p[1..][i] { assert p[1..][i] == p[i + 1]; }
      HighEnd(p[1..], e, k - 1);
      if d > 0 { assert p[..d][1..] == p[1..][..d - 1]; }
      else { assert p[1..][..0] == []; }
    }
  }

  /** A leaf that starts no later than another ends no later. */
  lemma LeafOrder(t: Tree, k: nat, q: Path, a: Path)
    requires |q| <= k && |a| <= k && Has(t, q) && Has(t, a) && At(t, q).Leaf? && At(t, a).Leaf?
    requires Addr(q, k) <= Addr(a, k)
    ensures EndOf(q, k) <= EndOf(a, k)
  {
    if q != a {
      LeavesNotNested(t, q, a);
      LeavesNotNested(t, a, q);
      BlocksDisjoint(q, a, k, Addr(a, k));
    }
  }
}
