/**
 The binary min-heap of sleeping threads, ordered by wake-up time. The sift loops work in place on
 the array; the functions say what they leave in it.
 */
module SleepHeap {
  /** kmt_sleep_request_t; time in milliseconds. */
  datatype Request = Request(thread: nat, time: nat)

  function Parent(i: nat): nat
    requires i > 0
  {
    (i - 1) / 2
  }

  function Swap(h: seq<Request>, i: nat, j: nat): (r: seq<Request>)
    requires i < |h| && j < |h|
    ensures |r| == |h| && multiset(r) == multiset(h)
  {
    h[i := h[j]][j := h[i]]
  }

  /** Every request is at most as early as its parent. */
  ghost predicate Ordered(h: seq<Request>) {
    forall k | 0 < k < |h| :: h[Parent(k)].time <= h[k].time
  }

  /** Position i may be too early for its parent; everything else is in order, also past i. */
  ghost predicate RisingAt(h: seq<Request>, i: nat) {
    && (forall k | 0 < k < |h| && k != i :: h[Parent(k)].time <= h[k].time)
    && (forall k | 0 < k < |h| && Parent(k) == i && 0 < i :: h[Parent(i)].time <= h[k].time)
  }

  /** Position i may be too late for its children. */
  ghost predicate SinkingAt(h: seq<Request>, i: nat) {
    && (forall k | 0 < k < |h| && Parent(k) != i :: h[Parent(k)].time <= h[k].time)
    && (forall k | 0 < k < |h| && Parent(k) == i && 0 < i < |h| :: h[Parent(i)].time <= h[k].time)
  }

  function SiftUp(h: seq<Request>, i: nat): seq<Request>
    requires i < |h|
    decreases i
  {
    if i == 0 || h[Parent(i)].time <= h[i].time then h else SiftUp(Swap(h, Parent(i), i), Parent(i))
  }

  /** The smallest of i and its children, the left child winning a tie with the right one. */
  function Smallest(h: seq<Request>, i: nat): (m: nat)
    requires i < |h|
    ensures i <= m < |h| && (m != i ==> Parent(m) == i && h[m].time < h[i].time)
    ensures forall k | 0 < k < |h| && Parent(k) == i :: h[m].time <= h[k].time
  {
    var l := if 2 * i + 1 < |h| && h[2 * i + 1].time < h[i].time then 2 * i + 1 else i;
    if 2 * i + 2 < |h| && h[2 * i + 2].time < h[l].time then 2 * i + 2 else l
  }

  function SiftDown(h: seq<Request>, i: nat): seq<Request>
    requires i < |h|
    decreases |h| - i
  {
    var m := Smallest(h, i);
    if m == i then h else SiftDown(Swap(h, m, i), m)
  }

  function Push(h: seq<Request>, x: Request): seq<Request> {
    SiftUp(h + [x], |h|)
  }

  function Pop(h: seq<Request>): seq<Request>
    requires |h| > 0
  {
    if |h| == 1 then [] else SiftDown(h[..|h| - 1][0 := h[|h| - 1]], 0)
  }

  lemma {:induction false} SiftUpOrders(h: seq<Request>, i: nat)
    requires i < |h| && RisingAt(h, i)
    ensures Ordered(SiftUp(h, i)) && multiset(SiftUp(h, i)) == multiset(h) && |SiftUp(h, i)| == |h|
    decreases i
  {
    if i > 0 && h[Parent(i)].time > h[i].time {
      RiseStep(h, i);
      SiftUpOrders(Swap(h, Parent(i), i), Parent(i));
    }
  }

  /** Rising one level leaves the position above as the only one that may be too early. */
  lemma RiseStep(h: seq<Request>, i: nat)
    requires 0 < i < |h| && RisingAt(h, i) && h[Parent(i)].time > h[i].time
    ensures RisingAt(Swap(h, Parent(i), i), Parent(i))
  {
    var p := Parent(i);
    var g := Swap(h, p, i);
    forall k | 0 < k < |g| && k != p ensures g[Parent(k)].time <= g[k].time {
      assert k != i ==> h[Parent(k)].time <= h[k].time;
    }
    forall k | 0 < k < |g| && Parent(k) == p && 0 < p ensures g[Parent(p)].time <= g[k].time {
      assert h[Parent(p)].time <= h[p].time && h[Parent(k)].time == h[p].time;
      assert k != i ==> h[p].time <= h[k].time;
    }
  }

  lemma {:induction false} SiftDownOrders(h: seq<Request>, i: nat)
    requires i < |h| && SinkingAt(h, i)
    ensures Ordered(SiftDown(h, i)) && multiset(SiftDown(h, i)) == multiset(h) && |SiftDown(h, i)| == |h|
    decreases |h| - i
  {
    var m := Smallest(h, i);
    SinkStep(h, i, m);
    if m != i { SiftDownOrders(Swap(h, m, i), m); }
  }

  lemma SinkStep(h: seq<Request>, i: nat, m: nat)
    requires i < |h| && SinkingAt(h, i) && m == Smallest(h, i)
    ensures if m == i then Ordered(h) else i < m < |h| && SinkingAt(Swap(h, m, i), m) && multiset(Swap(h, m, i)) == multiset(h)
  {
  }

  lemma {:induction false} PushSize(h: seq<Request>, i: nat)
    requires i < |h|
    ensures |SiftUp(h, i)| == |h|
    decreases i
  {
    if i > 0 && h[Parent(i)].time > h[i].time { PushSize(Swap(h, Parent(i), i), Parent(i)); }
  }

  lemma PushKeeps(h: seq<Request>, x: Request)
    requires Ordered(h)
    ensures Ordered(Push(h, x)) && multiset(Push(h, x)) == multiset(h) + multiset{x} && |Push(h, x)| == |h| + 1
  {
    SiftUpOrders(h + [x], |h|);
  }

  /** Which child a request sinks to: the left one only if it is earlier and not later than the right one; none if neither is earlier. */
  lemma SmallestExact(h: seq<Request>, i: nat)
    requires i < |h|
    ensures var l, r := 2 * i + 1, 2 * i + 2;
      && (Smallest(h, i) == l <==> l < |h| && h[l].time < h[i].time && (r < |h| ==> h[l].time <= h[r].time))
      && (Smallest(h, i) == r <==> r < |h| && h[r].time < h[i].time && h[r].time < h[l].time)
  {
  }

  lemma {:induction false} SiftUpBelow(h: seq<Request>, i: nat, k: nat)
    requires i < k < |h|
    ensures |SiftUp(h, i)| == |h| && SiftUp(h, i)[k] == h[k]
    decreases i
  {
    if i > 0 && h[Parent(i)].time > h[i].time { SiftUpBelow(Swap(h, Parent(i), i), Parent(i), k); }
  }

  /** A request that is not earlier than the one above the new place stays last; otherwise it takes that one's place or a higher one. */
  lemma PushExact(h: seq<Request>, x: Request)
    ensures h == [] ==> Push(h, x) == [x]
    ensures h != [] && h[Parent(|h|)].time <= x.time ==> Push(h, x) == h + [x]
    ensures h != [] && h[Parent(|h|)].time > x.time ==> |Push(h, x)| == |h| + 1 && Push(h, x)[|h|] == h[Parent(|h|)]
  {
    if h != [] && h[Parent(|h|)].time > x.time {
      SiftUpBelow(Swap(h + [x], Parent(|h|), |h|), Parent(|h|), |h|);
    }
  }

  /** The request at the root is the earliest. */
  lemma {:induction false} RootIsEarliest(h: seq<Request>, k: nat)
    requires Ordered(h) && k < |h|
    ensures h[0].time <= h[k].time
  {
    if k > 0 { RootIsEarliest(h, Parent(k)); }
  }

  lemma PopFrom(h: seq<Request>)
    requires Ordered(h) && |h| > 0
    ensures forall r | r in Pop(h) :: r in h
  {
    PopKeeps(h);
    forall r | r in Pop(h) ensures r in h { assert r in multiset(Pop(h)); }
  }

  /** Popping removes the root and keeps the rest in heap order. */
  lemma PopKeeps(h: seq<Request>)
    requires Ordered(h) && |h| > 0
    ensures Ordered(Pop(h)) && multiset(Pop(h)) == multiset(h) - multiset{h[0]} && |Pop(h)| == |h| - 1
  {
    var n := |h| - 1;
    if n > 0 {
      var g := h[..n][0 := h[n]];
      assert h == [h[0]] + h[1..n] + [h[n]];
      assert g == [h[n]] + h[1..n];
      SiftDownOrders(g, 0);
    } else {
      assert h == [h[0]];
    }
  }

  // ---------- what a tick takes out ----------

  /** The requests a tick at time `now` pops, in the order it pops them, and the heap it leaves. */
  function Due(h: seq<Request>, now: nat): (seq<Request>, seq<Request>)
    requires Ordered(h)
    decreases |h|
  {
    if |h| > 0 && h[0].time <= now then
      PopKeeps(h);
      var (due, rest) := Due(Pop(h), now);
      ([h[0]] + due, rest)
    else ([], h)
  }

  /** A tick splits the requests in two and leaves a heap. */
  lemma {:induction false} DueSplits(h: seq<Request>, now: nat)
    requires Ordered(h)
    ensures var (due, rest) := Due(h, now);
      multiset(due) + multiset(rest) == multiset(h) && Ordered(rest)
    decreases |h|
  {
    if |h| > 0 && h[0].time <= now {
      PopKeeps(h);
      DueSplits(Pop(h), now);
      var (due, rest) := Due(Pop(h), now);
      assert multiset([h[0]] + due) == multiset{h[0]} + multiset(due);
      PutBack(multiset(h), h[0], multiset(due), multiset(rest));
    }
  }

  lemma PutBack(m: multiset<Request>, x: Request, a: multiset<Request>, b: multiset<Request>)
    requires x in m && a + b == m - multiset{x}
    ensures multiset{x} + a + b == m
  {
    assert multiset{x} + a + b == multiset{x} + (a + b);
  }

  lemma Among(part: seq<Request>, other: seq<Request>, h: seq<Request>, r: Request)
    requires r in part && multiset(part) + multiset(other) == multiset(h)
    ensures r in h
  {
    assert multiset(part)[r] > 0;
    assert multiset(h)[r] > 0;
    assert r in multiset(h);
  }

  lemma {:induction false} DueSorted(h: seq<Request>, now: nat)
    requires Ordered(h)
    ensures forall i, j | 0 <= i < j < |Due(h, now).0| :: Due(h, now).0[i].time <= Due(h, now).0[j].time
    ensures forall r | r in Due(h, now).0 :: r.time <= now
    decreases |h|
  {
    if |h| > 0 && h[0].time <= now {
      PopKeeps(h);
      DueSorted(Pop(h), now);
      DueSplits(Pop(h), now);
      var (due, rest) := Due(Pop(h), now);
      forall r | r in due ensures h[0].time <= r.time {
        Among(due, rest, Pop(h), r);
        InHeap(h, r);
      }
    }
  }

  lemma InHeap(h: seq<Request>, r: Request)
    requires Ordered(h) && |h| > 0 && r in Pop(h)
    ensures r in h && h[0].time <= r.time
  {
    PopKeeps(h);
    assert r in multiset(Pop(h));
    assert multiset(h)[r] > 0;
    EarliestOf(h);
  }

  lemma EarliestOf(h: seq<Request>)
    requires Ordered(h)
    ensures forall r | r in h :: h[0].time <= r.time
  {
    forall k | 0 <= k < |h| ensures h[0].time <= h[k].time { RootIsEarliest(h, k); }
  }

  lemma {:induction false} RestLater(h: seq<Request>, now: nat)
    requires Ordered(h)
    ensures forall r | r in Due(h, now).1 :: r.time > now
    decreases |h|
  {
    EarliestOf(h);
    if |h| > 0 && h[0].time <= now {
      PopKeeps(h);
      RestLater(Pop(h), now);
    }
  }

  /** A tick takes out exactly the requests whose time has come, earliest first. */
  lemma DueExact(h: seq<Request>, now: nat)
    requires Ordered(h)
    ensures var (due, rest) := Due(h, now);
      && multiset(due) + multiset(rest) == multiset(h) && Ordered(rest)
      && (forall r | r in due :: r.time <= now) && (forall r | r in rest :: r.time > now)
      && (forall i, j | 0 <= i < j < |due| :: due[i].time <= due[j].time)
  {
    DueSplits(h, now);
    DueSorted(h, now);
    RestLater(h, now);
  }

  // ---------- the code ----------

  /** Swap two requests among the first n. */
  method Exchange(a: array<Request>, n: nat, i: nat, j: nat)
    requires i < n <= a.Length && j < n
    modifies a
    ensures a[..n] == Swap(old(a[..n]), i, j) && a[n..] == old(a[n..])
  {
    a[i], a[j] := a[j], a[i];
  }

  /** The heap part of kmt_sleep_until: put the request last and let it rise. */
  method PushRequest(a: array<Request>, size: nat, x: Request)
    requires size < a.Length
    modifies a
    ensures a[..size + 1] == Push(old(a[..size]), x)
    ensures a[size + 1..] == old(a[size + 1..])
  {
    a[size] := x;
    var idx, n := size, size + 1;
    ghost var goal, above := Push(old(a[..size]), x), a[n..];
    assert a[..n] == old(a[..size]) + [x];
    while idx > 0
      invariant idx < n && a[n..] == above && SiftUp(a[..n], idx) == goal
    {
      var parent := (idx - 1) / 2;
      if a[parent].time <= a[idx].time { break; }
      Exchange(a, n, parent, idx);
      idx := parent;
    }
  }

  /** kmt_pop_sleep_heap */
  method PopRequest(a: array<Request>, size: nat) returns (size': nat)
    requires size <= a.Length
    modifies a
    ensures size == 0 ==> size' == 0 && a[..] == old(a[..])
    ensures size > 0 ==> size' == size - 1 && a[..size'] == Pop(old(a[..size]))
  {
    if size == 0 { return 0; }
    if size == 1 { return 0; }
    a[0] := a[size - 1];
    size' := size - 1;
    ghost var goal := Pop(old(a[..size]));
    var idx := 0;
    assert a[..size'] == old(a[..size])[..size - 1][0 := old(a[size - 1])];
    while true
      invariant idx < size' < a.Length && SiftDown(a[..size'], idx) == goal
      decreases size' - idx
    {
      var smallest := LeastOf(a, size', idx);
      if smallest == idx { break; }
      Exchange(a, size', smallest, idx);
      idx := smallest;
    }
  }

  /** The comparison of a node with its children. */
  method LeastOf(a: array<Request>, n: nat, idx: nat) returns (smallest: nat)
    requires idx < n <= a.Length
    ensures smallest == Smallest(a[..n], idx)
  {
    var left, right := 2 * idx + 1, 2 * idx + 2;
    smallest := idx;
    if left < n && a[left].time < a[smallest].time { smallest := left; }
    if right < n && a[right].time < a[smallest].time { smallest := right; }
  }
}
