/**
 ba_mark_pages on values: a call writes one block after the other, and goes on from the node it has
 just written, even if writing has merged that node away.
 */
module Marking {
  import opened Bits
  import opened Errors
  import opened PageTree

  // ---------- the leaf at an address ----------

  /** The leaf that holds page x. */
  function LeafAt(t: Tree, k: nat, x: nat): (p: Path)
    requires Fits(t, k)
    ensures |p| <= k && Has(t, p) && At(t, p).Leaf?
  {
    match t
    case Leaf(_) => []
    case Branch(l, r) =>
      if x < Pow2(k - 1) then
        var q := LeafAt(l, k - 1, x);
        assert ([false] + q)[1..] == q;
        [false] + q
      else
        var q := LeafAt(r, k - 1, x - Pow2(k - 1));
        assert ([true] + q)[1..] == q;
        [true] + q
  }

  lemma {:induction false} LeafAtIs(t: Tree, k: nat, p: Path, x: nat)
    requires Fits(t, k) && |p| <= k && Has(t, p) && At(t, p).Leaf? && InBlock(p, k, x)
    ensures LeafAt(t, k, x) == p
  {
    if p != [] {
      var h := Pow2(k - 1);
      AddrBounds(p[1..], k - 1);
      LeafAtIs(Child(t, p[0]), k - 1, p[1..], if p[0] then x - h else x);
      assert p == [p[0]] + p[1..];
    }
  }

  /** Page x is the first page of its leaf. */
  predicate Starts(t: Tree, k: nat, x: nat)
    requires Fits(t, k)
  {
    Addr(LeafAt(t, k, x), k) == x
  }

  lemma {:induction false} FirstPageStarts(t: Tree, k: nat)
    requires Fits(t, k)
    ensures Starts(t, k, 0)
  {
    if t.Branch? { FirstPageStarts(t.left, k - 1); }
  }

  lemma StartsBelow(t: Tree, k: nat, x: nat)
    requires Fits(t, k) && t.Branch? && x < Pow2(k)
    requires var h := Pow2(k - 1); if x < h then Starts(t.left, k - 1, x) else Starts(t.right, k - 1, x - h)
    ensures Starts(t, k, x)
  {
    var h := Pow2(k - 1);
    var q := if x < h then LeafAt(t.left, k - 1, x) else LeafAt(t.right, k - 1, x - h);
    var b := x >= h;
    assert LeafAt(t, k, x) == [b] + q && ([b] + q)[1..] == q;
  }

  /** Where a leaf ends the next one starts. */
  lemma {:induction false} NextStarts(t: Tree, k: nat, p: Path)
    requires Fits(t, k) && |p| <= k && Has(t, p) && At(t, p).Leaf?
    ensures EndOf(p, k) <= Pow2(k) && (EndOf(p, k) < Pow2(k) ==> Starts(t, k, EndOf(p, k)))
  {
    if p != [] {
      var h, e := Pow2(k - 1), EndOf(p[1..], k - 1);
      NextStarts(Child(t, p[0]), k - 1, p[1..]);
      assert EndOf(p, k) == if p[0] then h + e else e;
      if EndOf(p, k) < Pow2(k) {
        if !p[0] && e == h { FirstPageStarts(t.right, k - 1); }
        StartsBelow(t, k, EndOf(p, k));
      }
    }
  }

  /** A single page is a leaf or lies in one. */
  lemma {:induction false} CoversPage(t: Tree, k: nat, p: Path)
    requires Fits(t, k) && |p| == k
    ensures Covers(t, p)
  {
    if t.Branch? { CoversPage(Child(t, p[0]), k - 1, p[1..]); }
  }

  // ---------- one round ----------

  /** Number of pages of block p. */
  function Size(p: Path, k: nat): nat
    requires |p| <= k
  {
    Pow2(k - |p|)
  }

  /** Where the next round starts, and how many pages are left for it. */
  function NextPage(x: nat, p: Path, k: nat): nat
    requires |p| <= k
  {
    x + Size(p, k)
  }

  function Left(cnt: nat, p: Path, k: nat): (left: nat)
    requires |p| <= k && Size(p, k) <= cnt
    ensures left < cnt
  {
    cnt - Size(p, k)
  }

  predicate OnRight(p: Path) {
    p != [] && p[|p| - 1]
  }

  /** Result and tree of a write, or of a whole call. KFREED: the call goes on from a node that is gone. */
  datatype Outcome = Outcome(err: Err, tree: Tree)

  /** pnode_set_flags on block p, carved out. */
  function Write(t: Tree, p: Path, flag: Flags, bypass: bool, silent: bool): Outcome
    requires Covers(t, p)
  {
    if Permits(Along(t, p), OnRight(p), flag, bypass) then Outcome(ESUCCESS, Mark(t, p, flag))
    else Outcome(if silent then EINVAL else KPANIC, Carve(t, p))
  }

  lemma {:induction false} CarveFits(t: Tree, k: nat, p: Path)
    requires Fits(t, k) && |p| <= k
    ensures Fits(Carve(t, p), k)
  {
    if p != [] { CarveFits(Child(Split(t), p[0]), k - 1, p[1..]); }
  }

  lemma WriteFits(t: Tree, k: nat, p: Path, flag: Flags, bypass: bool, silent: bool)
    requires Fits(t, k) && |p| <= k && Covers(t, p)
    ensures Fits(Write(t, p, flag, bypass, silent).tree, k)
  {
    MarkFits(t, k, p, flag);
    CarveFits(t, k, p);
  }

  /** The block written at page x when cnt pages are left: the leaf there, or only its first page if it is larger. */
  function NextBlock(t: Tree, k: nat, x: nat, cnt: nat): (p: Path)
    requires Fits(t, k) && cnt > 0
    ensures |p| <= k && Covers(t, p) && Size(p, k) <= cnt
  {
    var p := LeafAt(t, k, x);
    if Size(p, k) > cnt then
      var q := PathOf(x, k, 0);
      CoversPage(t, k, q);
      q
    else
      LeafAlong(t, p);
      p
  }

  // ---------- the call ----------

  /** The loop of ba_mark_pages, at page x with cnt pages left. */
  function Rest(t: Tree, k: nat, x: nat, cnt: nat, flag: Flags, bypass: bool, silent: bool): Outcome
    requires Fits(t, k)
    decreases cnt
  {
    if cnt == 0 then Outcome(ESUCCESS, t)
    else if x >= Pow2(k) then Outcome(ENOPAGE, t)
    else
      var p := NextBlock(t, k, x, cnt);
      var w := Write(t, p, flag, bypass, silent);
      WriteFits(t, k, p, flag, bypass, silent);
      if w.err == KPANIC then w
      else if !Has(w.tree, p) then Outcome(KFREED, w.tree)
      else Rest(w.tree, k, NextPage(x, p, k), Left(cnt, p, k), flag, bypass, silent)
  }

  /** The counter after the first page: it is unsigned and decremented before it is tested. */
  function CountLeft(n: nat): nat {
    if n == 0 then 0xFFFF_FFFF else n - 1
  }

  /** Addresses count from the start of memory again past its end. */
  function FirstPage(address: nat, k: nat): nat {
    address % Pow2(k)
  }

  /** The page after the first one. */
  function SecondPage(address: nat, k: nat): nat {
    FirstPage(address, k) + 1
  }

  /** The first block is a single page. */
  function FirstBlock(t: Tree, k: nat, address: nat): (p: Path)
    requires Fits(t, k)
    ensures |p| == k && Covers(t, p)
  {
    var p := PathOf(address, k, 0);
    CoversPage(t, k, p);
    p
  }

  /** ba_mark_pages */
  function MarkCall(t: Tree, k: nat, address: nat, n: nat, flag: Flags, bypass: bool, silent: bool): Outcome
    requires Fits(t, k)
  {
    var p := FirstBlock(t, k, address);
    var w := Write(t, p, flag, bypass, silent);
    WriteFits(t, k, p, flag, bypass, silent);
    if w.err == KPANIC then w
    else if CountLeft(n) == 0 then Outcome(ESUCCESS, w.tree)
    else if !Has(w.tree, p) then Outcome(KFREED, w.tree)
    else Rest(w.tree, k, SecondPage(address, k), CountLeft(n), flag, bypass, silent)
  }

  // ---------- round by round ----------

  /** A round: the tree it finds and the block it writes. */
  datatype Round = Round(tree: Tree, block: Path)

  function RoundsFrom(t: Tree, k: nat, x: nat, cnt: nat, flag: Flags, bypass: bool, silent: bool): seq<Round>
    requires Fits(t, k)
    decreases cnt
  {
    if cnt == 0 || x >= Pow2(k) then []
    else
      var p := NextBlock(t, k, x, cnt);
      var w := Write(t, p, flag, bypass, silent);
      WriteFits(t, k, p, flag, bypass, silent);
      [Round(t, p)] +
      if w.err == KPANIC || !Has(w.tree, p) then []
      else RoundsFrom(w.tree, k, NextPage(x, p, k), Left(cnt, p, k), flag, bypass, silent)
  }

  /** The rounds of a call, up to the one after which it stops or goes astray. */
  function Rounds(t: Tree, k: nat, address: nat, n: nat, flag: Flags, bypass: bool, silent: bool): seq<Round>
    requires Fits(t, k)
  {
    var p := FirstBlock(t, k, address);
    var w := Write(t, p, flag, bypass, silent);
    WriteFits(t, k, p, flag, bypass, silent);
    [Round(t, p)] +
    if w.err == KPANIC || CountLeft(n) == 0 || !Has(w.tree, p) then []
    else RoundsFrom(w.tree, k, SecondPage(address, k), CountLeft(n), flag, bypass, silent)
  }

  /** The round writes FREE flags to a block whose buddy is a leaf with the very same flags. */
  predicate Merges(r: Round, flag: Flags, bypass: bool) {
    && Covers(r.tree, r.block) && r.block != [] && Permits(Along(r.tree, r.block), OnRight(r.block), flag, bypass)
    && flag.status == PNODE_FREE && Buddy(r.tree, r.block) == Leaf(flag)
  }

  /** The round meets flags that may not be changed. */
  predicate Refuses(r: Round, flag: Flags, bypass: bool) {
    Covers(r.tree, r.block) && !Permits(Along(r.tree, r.block), OnRight(r.block), flag, bypass)
  }

  lemma WriteGone(t: Tree, p: Path, flag: Flags, bypass: bool, silent: bool)
    requires Covers(t, p)
    ensures !Has(Write(t, p, flag, bypass, silent).tree, p) <==> Merges(Round(t, p), flag, bypass)
    ensures Write(t, p, flag, bypass, silent).err == KPANIC <==> !silent && Refuses(Round(t, p), flag, bypass)
  {
    if p != [] { MarkedNodeStays(t, p, flag); }
    MarkOfCarved(t, p, flag);
  }

  ghost predicate SomeMerges(rounds: seq<Round>, flag: Flags, bypass: bool) {
    exists i :: 0 <= i < |rounds| && Merges(rounds[i], flag, bypass)
  }

  ghost predicate SomeRefuses(rounds: seq<Round>, flag: Flags, bypass: bool) {
    exists i :: 0 <= i < |rounds| && Refuses(rounds[i], flag, bypass)
  }

  lemma SomeOfMore(r: Round, rounds: seq<Round>, flag: Flags, bypass: bool)
    ensures SomeMerges([r] + rounds, flag, bypass) <==> Merges(r, flag, bypass) || SomeMerges(rounds, flag, bypass)
    ensures SomeRefuses([r] + rounds, flag, bypass) <==> Refuses(r, flag, bypass) || SomeRefuses(rounds, flag, bypass)
  {
    var all := [r] + rounds;
    assert all[0] == r && forall i | 0 <= i < |rounds| :: all[i + 1] == rounds[i];
    if SomeMerges(all, flag, bypass) {
      var i :| 0 <= i < |all| && Merges(all[i], flag, bypass);
      assert i > 0 ==> all[i] == rounds[i - 1];
    }
    if SomeRefuses(all, flag, bypass) {
      var i :| 0 <= i < |all| && Refuses(all[i], flag, bypass);
      assert i > 0 ==> all[i] == rounds[i - 1];
    }
  }

  /** The loop in terms of its next round, after which it is at page y with `left` pages left. */
  lemma RestRound(t: Tree, k: nat, x: nat, cnt: nat, p: Path, y: nat, left: nat, flag: Flags, bypass: bool, silent: bool)
    requires Fits(t, k) && cnt > 0 && x < Pow2(k) && p == NextBlock(t, k, x, cnt) && y == NextPage(x, p, k) && left == Left(cnt, p, k)
    ensures var w, o := Write(t, p, flag, bypass, silent), Rest(t, k, x, cnt, flag, bypass, silent);
      && Fits(w.tree, k)
      && (w.err == KPANIC ==> o == w)
      && (w.err != KPANIC && !Has(w.tree, p) ==> o == Outcome(KFREED, w.tree))
      && (w.err != KPANIC && Has(w.tree, p) ==> o == Rest(w.tree, k, y, left, flag, bypass, silent))
  {
    WriteFits(t, k, p, flag, bypass, silent);
  }

  lemma NextRounds(t: Tree, k: nat, x: nat, cnt: nat, p: Path, y: nat, left: nat, flag: Flags, bypass: bool, silent: bool)
    requires Fits(t, k) && cnt > 0 && x < Pow2(k) && p == NextBlock(t, k, x, cnt) && y == NextPage(x, p, k) && left == Left(cnt, p, k)
    ensures var w := Write(t, p, flag, bypass, silent);
      && Fits(w.tree, k)
      && RoundsFrom(t, k, x, cnt, flag, bypass, silent) == [Round(t, p)] + (
           if w.err == KPANIC || !Has(w.tree, p) then [] else RoundsFrom(w.tree, k, y, left, flag, bypass, silent))
  {
    WriteFits(t, k, p, flag, bypass, silent);
  }

  /** One more round in front. */
  lemma ExactMore(r: Round, w: Outcome, o: Outcome, more: seq<Round>, later: Outcome, flag: Flags, bypass: bool, silent: bool)
    requires w.err == KPANIC <==> !silent && Refuses(r, flag, bypass)
    requires w.err == KPANIC ==> o == w && more == []
    requires w.err != KPANIC && Merges(r, flag, bypass) ==> o.err == KFREED && more == []
    requires w.err != KPANIC && !Merges(r, flag, bypass) ==> o == later && Exact(later, more, flag, bypass, silent)
    ensures Exact(o, [r] + more, flag, bypass, silent)
  {
    SomeOfMore(r, more, flag, bypass);
  }

  /** The outcome is what the rounds say. */
  ghost predicate Exact(o: Outcome, rounds: seq<Round>, flag: Flags, bypass: bool, silent: bool) {
    && (o.err == KFREED <==> SomeMerges(rounds, flag, bypass))
    && (o.err == KPANIC <==> !silent && SomeRefuses(rounds, flag, bypass))
  }

  lemma {:induction false} RestExact(t: Tree, k: nat, x: nat, cnt: nat, flag: Flags, bypass: bool, silent: bool)
    requires Fits(t, k)
    ensures Exact(Rest(t, k, x, cnt, flag, bypass, silent), RoundsFrom(t, k, x, cnt, flag, bypass, silent), flag, bypass, silent)
    decreases cnt
  {
    if cnt > 0 && x < Pow2(k) {
      var p := NextBlock(t, k, x, cnt);
      var w := Write(t, p, flag, bypass, silent);
      var y, left := NextPage(x, p, k), Left(cnt, p, k);
      RestRound(t, k, x, cnt, p, y, left, flag, bypass, silent);
      NextRounds(t, k, x, cnt, p, y, left, flag, bypass, silent);
      WriteGone(t, p, flag, bypass, silent);
      var o, r := Rest(t, k, x, cnt, flag, bypass, silent), Round(t, p);
      if w.err == KPANIC || !Has(w.tree, p) {
        ExactMore(r, w, o, [], o, flag, bypass, silent);
      } else {
        RestExact(w.tree, k, y, left, flag, bypass, silent);
        ExactMore(r, w, o, RoundsFrom(w.tree, k, y, left, flag, bypass, silent), Rest(w.tree, k, y, left, flag, bypass, silent), flag, bypass, silent);
      }
    }
  }

  /**
   A call uses a node that was merged away if and only if it marks at least two pages and some round
   writes FREE flags to a block whose buddy is by then a leaf with those flags. It panics if and only if
   some round meets flags that may not be changed, and it is not to fail silently.
   */
  lemma CallExact(t: Tree, k: nat, address: nat, n: nat, flag: Flags, bypass: bool, silent: bool)
    requires Fits(t, k)
    ensures var o, rounds := MarkCall(t, k, address, n, flag, bypass, silent), Rounds(t, k, address, n, flag, bypass, silent);
      && (o.err == KFREED <==> n != 1 && SomeMerges(rounds, flag, bypass))
      && (o.err == KPANIC <==> !silent && SomeRefuses(rounds, flag, bypass))
  {
    var p := FirstBlock(t, k, address);
    var w := Write(t, p, flag, bypass, silent);
    WriteFits(t, k, p, flag, bypass, silent);
    WriteGone(t, p, flag, bypass, silent);
    var more := [];
    if w.err != KPANIC && CountLeft(n) > 0 && Has(w.tree, p) {
      RestExact(w.tree, k, SecondPage(address, k), CountLeft(n), flag, bypass, silent);
      more := RoundsFrom(w.tree, k, SecondPage(address, k), CountLeft(n), flag, bypass, silent);
    }
    SomeOfMore(Round(t, p), more, flag, bypass);
  }

  // ---------- the ordinary call goes astray ----------

  /** Writing FREE flags to part of a leaf that has them changes nothing. */
  lemma {:induction false} MarkSame(f: Flags, p: Path)
    requires f.status == PNODE_FREE
    ensures Mark(Leaf(f), p, f) == Leaf(f)
  {
    if p != [] { MarkSame(f, p[1..]); }
  }

  lemma {:induction false} MarkedWhole(t: Tree, p: Path, f: Flags)
    ensures Mark(t, p, f).Leaf? ==> Mark(t, p, f) == Leaf(f)
  {
    if p != [] { MarkedWhole(Child(Split(t), p[0]), p[1..], f); }
  }

  /** Marking the two halves of a block FREE leaves no node for the second half. */
  lemma {:induction false} BothHalvesMerge(t: Tree, p: Path, f: Flags)
    requires f.status == PNODE_FREE
    ensures !Has(Mark(Mark(t, p + [false], f), p + [true], f), p + [true])
  {
    var a, b := p + [false], p + [true];
    var m := Mark(t, a, f);
    if p == [] {
      assert a[1..] == [] && b[1..] == [];
    } else {
      var c := Child(Split(t), p[0]);
      assert a[0] == p[0] && b[0] == p[0] && a[1..] == p[1..] + [false] && b[1..] == p[1..] + [true];
      BothHalvesMerge(c, p[1..], f);
      MarkedWhole(t, a, f);
      if m.Leaf? { MarkSame(f, b); } else { assert Child(m, p[0]) == Mark(c, a[1..], f); }
    }
  }

  /** At the bottom of the tree every node is a leaf. */
  lemma {:induction false} BottomLeaf(t: Tree, k: nat, p: Path)
    requires Fits(t, k) && |p| == k && Has(t, p)
    ensures At(t, p).Leaf?
  {
    if p != [] { BottomLeaf(Child(t, p[0]), k - 1, p[1..]); }
  }

  lemma {:induction false} BuddyToo(t: Tree, p: Path)
    requires Has(t, p + [false])
    ensures Has(t, p + [true])
  {
    if p == [] {
      assert (p + [true])[1..] == [];
    } else {
      assert (p + [false])[0] == p[0] && (p + [false])[1..] == p[1..] + [false] && (p + [true])[1..] == p[1..] + [true];
      BuddyToo(Child(t, p[0]), p[1..]);
    }
  }

  /** The blocks of an even page and of the next one. */
  lemma PairOfPages(address: nat, k: nat, q: Path)
    requires address % 2 == 0 && k > 0 && q == PathOf(address, k, 1)
    ensures PathOf(address, k, 0) == q + [false] && |q| + 1 == k && SecondPage(address, k) < Pow2(k)
    ensures Addr(q + [false], k) == FirstPage(address, k) && Addr(q + [true], k) == SecondPage(address, k)
    ensures EndOf(q + [false], k) == SecondPage(address, k)
  {
    PathOfSnoc(address, k, 0);
    BitIsDivision(address, 0);
    PathOfHolds(address, k, 0);
    AddrSnoc(q, false, k);
    AddrSnoc(q, true, k);
    AddrBounds(q + [true], k);
  }

  /**
   Marking two or more pages FREE from an even page on goes astray: the node of the second page is merged
   away, if not that of the first already, and then used.
   */
  lemma EvenStartGoesAstray(t: Tree, k: nat, address: nat, n: nat, flag: Flags, bypass: bool, silent: bool)
    requires Fits(t, k) && k > 0 && address % 2 == 0 && n != 1 && flag.status == PNODE_FREE
    requires Permits(FlagsAt(t, k, FirstPage(address, k)), false, flag, bypass)
    requires Permits(FlagsAt(t, k, SecondPage(address, k)), true, flag, bypass)
    ensures MarkCall(t, k, address, n, flag, bypass, silent).err == KFREED
  {
    var q, p, y := PathOf(address, k, 1), FirstBlock(t, k, address), SecondPage(address, k);
    PairOfPages(address, k, q);
    AlongPages(t, k, p, FirstPage(address, k));
    MarkPagesOfBlock(t, k, p, flag, y);
    var t1 := Mark(t, p, flag);
    assert Write(t, p, flag, bypass, silent) == Outcome(ESUCCESS, t1);
    if Has(t1, p) {
      BuddyToo(t1, q);
      BottomLeaf(t1, k, q + [true]);
      CoversPage(t1, k, q + [true]);
      AlongPages(t1, k, q + [true], y);
      BothHalvesMerge(t, q, flag);
      assert FlagsAt(t1, k, y) == FlagsAt(t, k, y);
      assert Permits(Along(t1, q + [true]), true, flag, bypass);
      SecondRound(t1, k, q + [true], y, CountLeft(n), flag, bypass, silent);
    }
  }

  /** The round that merges its node away is the last one. */
  lemma SecondRound(t: Tree, k: nat, p: Path, y: nat, cnt: nat, flag: Flags, bypass: bool, silent: bool)
    requires Fits(t, k) && cnt > 0 && |p| == k && Has(t, p) && At(t, p).Leaf? && Addr(p, k) == y < Pow2(k)
    requires Covers(t, p) && Permits(Along(t, p), OnRight(p), flag, bypass) && !Has(Mark(t, p, flag), p)
    ensures Rest(t, k, y, cnt, flag, bypass, silent).err == KFREED
  {
    LeafAtIs(t, k, p, y);
    RestRound(t, k, y, cnt, p, NextPage(y, p, k), Left(cnt, p, k), flag, bypass, silent);
  }

  /** With bypass, as boot marks usable memory, FREE flags are always permitted, so every such call goes astray. */
  lemma BootCallGoesAstray(t: Tree, k: nat, address: nat, n: nat, flag: Flags)
    requires Fits(t, k) && k > 0 && address % 2 == 0 && n != 1 && flag.status == PNODE_FREE
    ensures MarkCall(t, k, address, n, flag, true, false).err == KFREED
  {
    EvenStartGoesAstray(t, k, address, n, flag, true, false);
  }

  // ---------- which pages are marked ----------

  /** Flags page x ends up with when [first, upto) is marked. */
  function MarkedFlags(was: Flags, inRange: bool, flag: Flags, bypass: bool): Flags {
    if inRange && Permits(was, true, flag, bypass) then flag else was
  }

  /** Page x exists and its flags may not be changed. */
  ghost predicate Refused(t: Tree, k: nat, x: int, flag: Flags, bypass: bool) {
    0 <= x < Pow2(k) && Fits(t, k) && !Permits(FlagsAt(t, k, x), true, flag, bypass)
  }

  /** t is t0 with the permitted pages of [first, upto) given the flags `flag`. */
  ghost predicate MarkedUpTo(t0: Tree, t: Tree, k: nat, first: nat, upto: nat, flag: Flags, bypass: bool) {
    && Fits(t0, k) && Fits(t, k)
    && forall x: nat {:trigger FlagsAt(t, k, x)} | x < Pow2(k) ::
         FlagsAt(t, k, x) == MarkedFlags(FlagsAt(t0, k, x), first <= x < upto, flag, bypass)
  }

  lemma MarkedCarve(t0: Tree, t: Tree, k: nat, first: nat, upto: nat, flag: Flags, bypass: bool, p: Path)
    requires MarkedUpTo(t0, t, k, first, upto, flag, bypass) && |p| <= k
    ensures MarkedUpTo(t0, Carve(t, p), k, first, upto, flag, bypass)
  {
    CarvePages(t, k, p, 0);
    forall x: nat | x < Pow2(k) ensures FlagsAt(Carve(t, p), k, x) == FlagsAt(t, k, x) {
      CarvePages(t, k, p, x);
    }
  }

  /** A page from upto on has its first flags. */
  lemma NotMarkedYet(t0: Tree, t: Tree, k: nat, first: nat, upto: nat, flag: Flags, bypass: bool, x: nat)
    requires MarkedUpTo(t0, t, k, first, upto, flag, bypass) && upto <= x < Pow2(k)
    ensures FlagsAt(t, k, x) == FlagsAt(t0, k, x)
  {
  }

  lemma MarkedToEnd(t0: Tree, t: Tree, k: nat, first: nat, upto: nat, beyond: nat, flag: Flags, bypass: bool)
    requires MarkedUpTo(t0, t, k, first, upto, flag, bypass) && Pow2(k) <= upto <= beyond
    ensures MarkedUpTo(t0, t, k, first, beyond, flag, bypass)
  {
  }

  /** Marking (or, when not permitted, skipping) the leaf that starts at upto extends the marked range. */
  lemma MarkedNext(t0: Tree, t: Tree, k: nat, t': Tree, first: nat, upto: nat, flag: Flags, bypass: bool, p: Path, end: nat)
    requires MarkedUpTo(t0, t, k, first, upto, flag, bypass) && first <= upto
    requires |p| <= k && Has(t, p) && At(t, p).Leaf? && Addr(p, k) == upto && end == upto + Pow2(k - |p|)
    requires var f, ok := At(t, p).flags, Permits(At(t, p).flags, true, flag, bypass);
      (t' == Mark(t, p, flag) && (ok || f == flag)) || (t' == t && !ok)
    ensures MarkedUpTo(t0, t', k, first, end, flag, bypass)
  {
    MarkFits(t, k, p, flag);
    forall x: nat | x < Pow2(k)
      ensures FlagsAt(t', k, x) ==
        MarkedFlags(FlagsAt(t0, k, x), first <= x < end, flag, bypass)
    {
      var was := FlagsAt(t, k, x);
      assert was == MarkedFlags(FlagsAt(t0, k, x), first <= x < upto, flag, bypass);
      MarkPagesOfBlock(t, k, p, flag, x);
      if InBlock(p, k, x) { FlagsAtLeaf(t, k, p, x); }
    }
  }

  /** One round extends the marked range by its block. */
  lemma RoundMarks(t0: Tree, t: Tree, k: nat, first: nat, x: nat, p: Path, flag: Flags, bypass: bool, silent: bool)
    requires MarkedUpTo(t0, t, k, first, x, flag, bypass) && first <= x
    requires |p| <= k && Covers(t, p) && Addr(p, k) == x
    ensures var w := Write(t, p, flag, bypass, silent);
      && (w.err != KPANIC ==> MarkedUpTo(t0, w.tree, k, first, EndOf(p, k), flag, bypass))
      && (Normal(t) && w.err != KPANIC ==> Normal(w.tree))
      && (w.err == KPANIC ==> !silent && Refused(t0, k, x, flag, bypass))
  {
    var t1, was := Carve(t, p), Along(t, p);
    MarkOfCarved(t, p, flag);
    CarveCovers(t, p);
    CoveredLeaf(t1, p);
    MarkedCarve(t0, t, k, first, x, flag, bypass, p);
    PermitsEitherSide(was, OnRight(p), flag, bypass);
    AddrBounds(p, k);
    AlongPages(t, k, p, x);
    var w := Write(t, p, flag, bypass, silent);
    if w.err == KPANIC {
      NotMarkedYet(t0, t, k, first, x, flag, bypass, x);
    } else {
      if Normal(t) { MarkLeafNormal(t, p, flag); }
      MarkedNext(t0, t1, k, w.tree, first, x, flag, bypass, p, EndOf(p, k));
    }
  }

  lemma {:induction false} CoveredLeaf(t: Tree, p: Path)
    requires Covers(t, p) && Has(t, p)
    ensures At(t, p) == Leaf(Along(t, p))
  {
    if p != [] { CoveredLeaf(Child(t, p[0]), p[1..]); }
  }

  lemma {:induction false} MarkedIsLeaf(t: Tree, p: Path, f: Flags)
    requires Has(Mark(t, p, f), p)
    ensures At(Mark(t, p, f), p).Leaf?
  {
    if p != [] { MarkedIsLeaf(Child(Split(t), p[0]), p[1..], f); }
  }

  /** After a round that leaves its node in place, the next leaf starts where the block ends. */
  lemma RoundEnds(t: Tree, k: nat, p: Path, flag: Flags, bypass: bool, silent: bool)
    requires Fits(t, k) && |p| <= k && Covers(t, p)
    requires Has(Write(t, p, flag, bypass, silent).tree, p)
    ensures var w, x := Write(t, p, flag, bypass, silent), EndOf(p, k);
      Fits(w.tree, k) && x <= Pow2(k) && (x < Pow2(k) ==> Starts(w.tree, k, x)) && At(w.tree, p).Leaf?
  {
    var w := Write(t, p, flag, bypass, silent);
    WriteFits(t, k, p, flag, bypass, silent);
    if w.tree == Mark(t, p, flag) { MarkedIsLeaf(t, p, flag); }
    else {
      CarveCovers(t, p);
      CoveredLeaf(w.tree, p);
    }
    NextStarts(w.tree, k, p);
  }

  /** Where a round starts. */
  lemma BlockStarts(t: Tree, k: nat, x: nat, cnt: nat)
    requires Fits(t, k) && cnt > 0 && x < Pow2(k) && Starts(t, k, x)
    ensures Addr(NextBlock(t, k, x, cnt), k) == x
  {
    PathOfHolds(x, k, 0);
    DivModUnique(x, 0, x, Pow2(k));
  }

  /** The side bit of a node does not matter to whether these flags are permitted. */
  predicate SideFree(flag: Flags, bypass: bool) {
    bypass || flag.status != PNODE_BLOCKED
  }

  ghost predicate NoneRefused(t: Tree, k: nat, x: nat, last: nat, flag: Flags, bypass: bool) {
    forall y | x <= y < last :: !Refused(t, k, y, flag, bypass)
  }

  /** A round that writes its block finds no page refused there. */
  lemma RoundPermits(t0: Tree, t: Tree, k: nat, first: nat, x: nat, p: Path, flag: Flags, bypass: bool)
    requires MarkedUpTo(t0, t, k, first, x, flag, bypass) && |p| <= k && Covers(t, p) && Addr(p, k) == x
    requires Permits(Along(t, p), OnRight(p), flag, bypass) && SideFree(flag, bypass)
    ensures NoneRefused(t0, k, x, EndOf(p, k), flag, bypass)
  {
    SideBitMatters(Along(t, p), flag, bypass);
    forall y | x <= y < EndOf(p, k) ensures !Refused(t0, k, y, flag, bypass) {
      AddrBounds(p, k);
      AlongPages(t, k, p, y);
      NotMarkedYet(t0, t, k, first, x, flag, bypass, y);
    }
  }

  /** What the loop does to the pages from x on. */
  ghost predicate Marks(t0: Tree, t: Tree, k: nat, o: Outcome, first: nat, x: nat, last: nat, flag: Flags, bypass: bool, silent: bool) {
    && o.err in {ESUCCESS, ENOPAGE, KPANIC, KFREED} && Fits(o.tree, k)
    && (o.err == ESUCCESS ==> last <= Pow2(k)) && (o.err == ENOPAGE ==> last > Pow2(k))
    && (o.err in {ESUCCESS, ENOPAGE} ==> MarkedUpTo(t0, o.tree, k, first, last, flag, bypass))
    && (Normal(t) && o.err != KPANIC ==> Normal(o.tree))
    && (o.err == KPANIC ==> !silent && exists y :: x <= y < last && Refused(t0, k, y, flag, bypass))
    && (o.err in {ESUCCESS, ENOPAGE} && !silent && SideFree(flag, bypass) ==> NoneRefused(t0, k, x, last, flag, bypass))
  }

  /** One more round in front. */
  lemma MarksMore(t0: Tree, t: Tree, k: nat, w: Outcome, gone: bool, o: Outcome, first: nat, x: nat, y: nat, last: nat, flag: Flags, bypass: bool, silent: bool)
    requires first <= x < y && x < last && Fits(w.tree, k) && (Normal(t) && w.err != KPANIC ==> Normal(w.tree))
    requires w.err == KPANIC ==> o == w && !silent && Refused(t0, k, x, flag, bypass)
    requires w.err != KPANIC && gone ==> o == Outcome(KFREED, w.tree)
    requires w.err != KPANIC && !gone ==> Marks(t0, w.tree, k, o, first, y, last, flag, bypass, silent)
    requires w.err != KPANIC && !silent && SideFree(flag, bypass) ==> NoneRefused(t0, k, x, y, flag, bypass)
    ensures Marks(t0, t, k, o, first, x, last, flag, bypass, silent)
  {
  }

  lemma {:induction false} RestMarks(t0: Tree, t: Tree, k: nat, first: nat, x: nat, cnt: nat, last: nat, flag: Flags, bypass: bool, silent: bool)
    requires MarkedUpTo(t0, t, k, first, x, flag, bypass) && first <= x <= Pow2(k) && last == x + cnt
    requires x < Pow2(k) ==> Starts(t, k, x)
    ensures Marks(t0, t, k, Rest(t, k, x, cnt, flag, bypass, silent), first, x, last, flag, bypass, silent)
    decreases cnt
  {
    var o := Rest(t, k, x, cnt, flag, bypass, silent);
    if cnt > 0 && x < Pow2(k) {
      var p := NextBlock(t, k, x, cnt);
      var w := Write(t, p, flag, bypass, silent);
      var y, left := NextPage(x, p, k), Left(cnt, p, k);
      BlockStarts(t, k, x, cnt);
      assert y == EndOf(p, k);
      RoundMarks(t0, t, k, first, x, p, flag, bypass, silent);
      RestRound(t, k, x, cnt, p, y, left, flag, bypass, silent);
      if w.err != KPANIC && Has(w.tree, p) {
        RoundEnds(t, k, p, flag, bypass, silent);
        RestMarks(t0, w.tree, k, first, y, left, last, flag, bypass, silent);
      }
      if w.err == ESUCCESS && SideFree(flag, bypass) { RoundPermits(t0, t, k, first, x, p, flag, bypass); }
      MarksMore(t0, t, k, w, !Has(w.tree, p), o, first, x, y, last, flag, bypass, silent);
    } else if cnt > 0 {
      MarkedToEnd(t0, t, k, first, x, last, flag, bypass);
    }
  }

  /**
   A call that returns has given the flags to exactly the permitted pages of the range, fails with
   ENOPAGE exactly when the range passes the end of memory, and panics only for a page of the range.
   */
  lemma CallMarks(t: Tree, k: nat, address: nat, n: nat, flag: Flags, bypass: bool, silent: bool, first: nat, last: nat)
    requires Fits(t, k) && first == address % Pow2(k) && last == first + 1 + CountLeft(n)
    ensures Marks(t, t, k, MarkCall(t, k, address, n, flag, bypass, silent), first, first, last, flag, bypass, silent)
  {
    var p, y := FirstBlock(t, k, address), SecondPage(address, k);
    var w, o := Write(t, p, flag, bypass, silent), MarkCall(t, k, address, n, flag, bypass, silent);
    PathOfHolds(address, k, 0);
    assert EndOf(p, k) == y;
    RoundMarks(t, t, k, first, first, p, flag, bypass, silent);
    WriteFits(t, k, p, flag, bypass, silent);
    if w.err != KPANIC && Has(w.tree, p) && CountLeft(n) > 0 {
      RoundEnds(t, k, p, flag, bypass, silent);
      RestMarks(t, w.tree, k, first, y, CountLeft(n), last, flag, bypass, silent);
    }
    if w.err == ESUCCESS && SideFree(flag, bypass) { RoundPermits(t, t, k, first, first, p, flag, bypass); }
    if w.err == KPANIC || CountLeft(n) > 0 {
      MarksMore(t, t, k, w, !Has(w.tree, p), o, first, first, y, last, flag, bypass, silent);
    }
  }

  // ---------- one page ----------

  /** Page x alone, as the block that is written for it. */
  lemma SinglePage(t: Tree, k: nat, address: nat, p: Path)
    requires Fits(t, k) && k > 0 && p == FirstBlock(t, k, address)
    ensures Addr(p, k) == FirstPage(address, k) < Pow2(k) && EndOf(p, k) == FirstPage(address, k) + 1
    ensures Along(t, p) == FlagsAt(t, k, FirstPage(address, k)) && (OnRight(p) <==> address % 2 == 1)
  {
    PathOfHolds(address, k, 0);
    PathOfSnoc(address, k, 0);
    BitIsDivision(address, 0);
    AddrBounds(p, k);
    AlongPages(t, k, p, FirstPage(address, k));
  }

  /**
   Marking one page. A USED page keeps its mapping unless it is freed with bypass; a BLOCKED page must get
   another mapping, or stay as it is on an even page, unless there is bypass; where this is violated the call
   panics, or, if it is to fail silently, returns as if it had succeeded, and the page keeps its flags. No
   other page changes.
   */
  lemma MarkOnePage(t: Tree, k: nat, address: nat, flag: Flags, bypass: bool, silent: bool, y: nat)
    requires Fits(t, k) && k > 0 && y < Pow2(k)
    ensures var o, x := MarkCall(t, k, address, 1, flag, bypass, silent), address % Pow2(k);
      var was := FlagsAt(t, k, x);
      var ok :=
        if was.status == PNODE_USED then flag.mapping == was.mapping || (bypass && flag.status in {PNODE_ACPI, PNODE_FREE})
        else was.status != PNODE_BLOCKED || flag.mapping != was.mapping || bypass || (flag.status == PNODE_BLOCKED && address % 2 == 0);
      && o.err == (if ok || silent then ESUCCESS else KPANIC)
      && Fits(o.tree, k) && FlagsAt(o.tree, k, y) == if y == x && ok then flag else FlagsAt(t, k, y)
  {
    var p := FirstBlock(t, k, address);
    SinglePage(t, k, address, p);
    PermitsExact(Along(t, p), OnRight(p), flag, bypass);
    WriteFits(t, k, p, flag, bypass, silent);
    MarkPagesOfBlock(t, k, p, flag, y);
    CarvePages(t, k, p, y);
  }

  // ---------- which nodes are split ----------

  lemma {:induction false} CarveKeepsLeaf(t: Tree, p: Path, q: Path)
    requires Has(t, q) && At(t, q).Leaf? && !(q <= p) && !(p <= q)
    ensures Has(Carve(t, p), q) && At(Carve(t, p), q) == At(t, q)
  {
    if p[0] == q[0] {
      assert p == [p[0]] + p[1..] && q == [q[0]] + q[1..];
      CarveKeepsLeaf(Child(t, p[0]), p[1..], q[1..]);
    }
  }

  lemma {:induction false} MarkKeepsLeaf(t: Tree, p: Path, f: Flags, q: Path)
    requires Has(t, q) && At(t, q).Leaf? && !(q <= p) && !(p <= q) && f.status != PNODE_FREE
    ensures Has(Mark(t, p, f), q) && At(Mark(t, p, f), q) == At(t, q)
  {
    MarkedLeaf(t, p, f);
    if p[0] == q[0] {
      assert p == [p[0]] + p[1..] && q == [q[0]] + q[1..];
      MarkKeepsLeaf(Child(t, p[0]), p[1..], f, q[1..]);
    }
  }

  /** Path q names a leaf. */
  predicate IsLeaf(t: Tree, q: Path) {
    Has(t, q) && At(t, q).Leaf?
  }

  /** Writing a block makes it a leaf, and leaves all others. */
  lemma WriteLeaf(t: Tree, p: Path, flag: Flags, bypass: bool, silent: bool)
    requires Covers(t, p) && flag.status != PNODE_FREE
    ensures IsLeaf(Write(t, p, flag, bypass, silent).tree, p)
  {
    MarkedLeaf(t, p, flag);
    MarkOfCarved(t, p, flag);
    CarveCovers(t, p);
    CoveredLeaf(Carve(t, p), p);
  }

  lemma WriteKeepsLeaf(t: Tree, k: nat, p: Path, flag: Flags, bypass: bool, silent: bool, q: Path)
    requires Covers(t, p) && IsLeaf(t, q) && flag.status != PNODE_FREE && |p| <= k && |q| <= k
    requires EndOf(p, k) <= Addr(q, k) || EndOf(q, k) <= Addr(p, k)
    ensures IsLeaf(Write(t, p, flag, bypass, silent).tree, q)
  {
    if q <= p { Within(q, p, k); }
    if p <= q { Within(p, q, k); }
    CarveKeepsLeaf(t, p, q);
    MarkKeepsLeaf(t, p, flag, q);
  }

  /** A block lies within the blocks above it. */
  lemma {:induction false} Within(p: Path, q: Path, k: nat)
    requires p <= q && |q| <= k
    ensures Addr(p, k) <= Addr(q, k) < EndOf(q, k) <= EndOf(p, k)
  {
    AddrBounds(q, k);
    if p != [] { Within(p[1..], q[1..], k - 1); }
  }

  /** Leaves are apart: one that does not start before another starts where that one ends, or later. */
  lemma LeavesApart(t: Tree, k: nat, p: Path, q: Path)
    requires Fits(t, k) && |p| <= k && |q| <= k && IsLeaf(t, p) && IsLeaf(t, q) && p != q && Addr(p, k) <= Addr(q, k)
    ensures EndOf(p, k) <= Addr(q, k)
  {
    if p <= q { LeafNotAbove(t, p, q); }
    if q <= p { LeafNotAbove(t, q, p); }
    Within(q, q, k);
    BlocksDisjoint(p, q, k, Addr(q, k));
  }

  lemma {:induction false} LeafNotAbove(t: Tree, p: Path, q: Path)
    requires IsLeaf(t, p) && Has(t, q) && p <= q
    ensures p == q
  {
    if q != [] && p != [] {
      LeafNotAbove(Child(t, p[0]), p[1..], q[1..]);
      assert p == [p[0]] + p[1..] && q == [q[0]] + q[1..];
    }
  }

  /** The round at page x: the block it writes ends within the leaf there, and has all of it or a single page. */
  lemma RoundBlock(t: Tree, k: nat, x: nat, cnt: nat, p: Path, leaf: Path)
    requires Fits(t, k) && cnt > 0 && x < Pow2(k) && Starts(t, k, x) && p == NextBlock(t, k, x, cnt) && leaf == LeafAt(t, k, x)
    ensures Addr(p, k) == Addr(leaf, k) == x && x < EndOf(p, k) <= EndOf(leaf, k)
    ensures if EndOf(leaf, k) <= x + cnt then p == leaf else p == PathOf(x, k, 0) && EndOf(p, k) == x + 1
  {
    BlockStarts(t, k, x, cnt);
    AddrBounds(p, k);
    AddrBounds(leaf, k);
  }

  /** Leaves behind the loop stay. */
  lemma {:induction false} RestKeepsDone(t: Tree, k: nat, x: nat, cnt: nat, flag: Flags, bypass: bool, silent: bool, q: Path)
    requires Fits(t, k) && (x < Pow2(k) ==> Starts(t, k, x)) && flag.status != PNODE_FREE
    requires |q| <= k && IsLeaf(t, q) && EndOf(q, k) <= x
    ensures IsLeaf(Rest(t, k, x, cnt, flag, bypass, silent).tree, q)
    decreases cnt
  {
    if cnt > 0 && x < Pow2(k) {
      var p := NextBlock(t, k, x, cnt);
      var w := Write(t, p, flag, bypass, silent);
      var y, left := NextPage(x, p, k), Left(cnt, p, k);
      RoundBlock(t, k, x, cnt, p, LeafAt(t, k, x));
      RestRound(t, k, x, cnt, p, y, left, flag, bypass, silent);
      WriteKeepsLeaf(t, k, p, flag, bypass, silent, q);
      if w.err != KPANIC && Has(w.tree, p) {
        RoundEnds(t, k, p, flag, bypass, silent);
        RestKeepsDone(w.tree, k, y, left, flag, bypass, silent, q);
      }
    }
  }

  /** What becomes of the leaf q of the pages the loop is still to mark. */
  ghost predicate Shaped(t: Tree, k: nat, q: Path, last: nat)
    requires |q| <= k
  {
    IsLeaf(t, if EndOf(q, k) <= last then q else PathOf(Addr(q, k), k, 0))
  }

  lemma {:induction false} RestShape(t: Tree, k: nat, x: nat, cnt: nat, flag: Flags, bypass: bool, silent: bool, q: Path)
    requires Fits(t, k) && x < Pow2(k) && Starts(t, k, x) && flag.status != PNODE_FREE
    requires |q| <= k && IsLeaf(t, q) && x <= Addr(q, k) < x + cnt
    requires Rest(t, k, x, cnt, flag, bypass, silent).err in {ESUCCESS, ENOPAGE}
    ensures Shaped(Rest(t, k, x, cnt, flag, bypass, silent).tree, k, q, x + cnt)
    decreases cnt
  {
    var p, leaf := NextBlock(t, k, x, cnt), LeafAt(t, k, x);
    var w := Write(t, p, flag, bypass, silent);
    var y, left := NextPage(x, p, k), Left(cnt, p, k);
    RoundBlock(t, k, x, cnt, p, leaf);
    RestRound(t, k, x, cnt, p, y, left, flag, bypass, silent);
    WriteLeaf(t, p, flag, bypass, silent);
    RoundEnds(t, k, p, flag, bypass, silent);
    assert y == EndOf(p, k);
    if q == leaf {
      RestKeepsDone(w.tree, k, y, left, flag, bypass, silent, p);
    } else {
      LeavesApart(t, k, leaf, q);
      Within(q, q, k);
      AddrBounds(q, k);
      WriteKeepsLeaf(t, k, p, flag, bypass, silent, q);
      RestShape(w.tree, k, y, left, flag, bypass, silent, q);
    }
  }

  /**
   Which nodes a call makes, for flags that are not FREE: the first page becomes a leaf of its own; every leaf
   behind it that lies within the range is written whole and stays one leaf; of the leaf that sticks out at the
   end the first page becomes a leaf of its own.
   */
  lemma CallShape(t: Tree, k: nat, address: nat, n: nat, flag: Flags, bypass: bool, silent: bool, q: Path)
    requires Fits(t, k) && k > 0 && flag.status != PNODE_FREE
    requires MarkCall(t, k, address, n, flag, bypass, silent).err in {ESUCCESS, ENOPAGE}
    ensures var r := MarkCall(t, k, address, n, flag, bypass, silent).tree;
      && IsLeaf(r, PathOf(address, k, 0))
      && (|q| <= k && IsLeaf(t, q) && SecondPage(address, k) <= Addr(q, k) < SecondPage(address, k) + CountLeft(n) ==>
            Shaped(r, k, q, SecondPage(address, k) + CountLeft(n)))
  {
    var p, y := FirstBlock(t, k, address), SecondPage(address, k);
    var w := Write(t, p, flag, bypass, silent);
    SinglePage(t, k, address, p);
    WriteFits(t, k, p, flag, bypass, silent);
    WriteLeaf(t, p, flag, bypass, silent);
    if CountLeft(n) > 0 {
      RoundEnds(t, k, p, flag, bypass, silent);
      RestKeepsDone(w.tree, k, y, CountLeft(n), flag, bypass, silent, p);
      if |q| <= k && IsLeaf(t, q) && y <= Addr(q, k) < y + CountLeft(n) {
        Within(q, q, k);
        AddrBounds(q, k);
        WriteKeepsLeaf(t, k, p, flag, bypass, silent, q);
        RestShape(w.tree, k, y, CountLeft(n), flag, bypass, silent, q);
      }
    }
  }
}
