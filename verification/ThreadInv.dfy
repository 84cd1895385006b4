/** What every step of the thread system keeps: each thread is in exactly the place its status names. */
module ThreadInv {
  import opened Bits
  import opened Options
  import opened SleepHeap
  import opened Threads

  function One(b: bool): nat { if b then 1 else 0 }

  function Count(q: seq<nat>, t: nat): nat { multiset(q)[t] }

  /** Number of calls made by c. */
  function From(calls: seq<Rpc>, c: nat): nat {
    if calls == [] then 0 else One(calls[0].caller == c) + From(calls[1..], c)
  }

  /** Thread t has status st. */
  predicate Is(s: State, t: nat, st: Status) {
    t < |s.threads| && s.threads[t].status == st
  }

  /** A ready thread is once in the ready queue it was pushed on and in no other; no other thread is in any. */
  ghost predicate Readied(s: State) {
    && |s.ready| == QUEUES
    && (forall p, t: nat | 0 <= p < QUEUES :: Count(s.ready[p], t) == One(Is(s, t, Ready) && s.threads[t].home == p))
    && (forall t: nat | Is(s, t, Ready) :: s.threads[t].home < QUEUES)
  }

  /** The bitmap says which ready queues are not empty. */
  ghost predicate Mapped(s: State) {
    && |s.ready| == QUEUES
    && (forall p | 0 <= p < QUEUES :: Bit(s.bitmap, p) <==> s.ready[p] != [])
    && (forall p: nat | QUEUES <= p :: !Bit(s.bitmap, p))
  }

  /** A sleeping thread has exactly one request in the heap, the one it sleeps for. */
  ghost predicate Asleep(s: State) {
    forall t: nat, w: nat :: multiset(s.sleepers)[Request(t, w)] == One(Is(s, t, IdleSleep) && s.threads[t].wait == InSleep(w))
  }

  /** A thread waiting for a mutex is once in that mutex's queue; only an owned mutex has waiters. */
  ghost predicate Locked(s: State) {
    && |s.mutexes| == KMT_MAX_MUTEXES
    && (forall m, t: nat | 0 <= m < KMT_MAX_MUTEXES ::
          Count(s.mutexes[m].waiting, t) == One(Is(s, t, IdleMutex) && s.threads[t].wait == InLock(m)))
    && (forall m | 0 <= m < KMT_MAX_MUTEXES :: Sound(s, s.mutexes[m]))
    && (forall m | s.mutexCount <= m < KMT_MAX_MUTEXES :: !s.mutexes[m].used)
  }

  predicate Sound(s: State, x: Mutex) {
    match x.owner
    case None => x.waiting == []
    case Some(o) => x.used && o < |s.threads|
  }

  /** A caller without an answer has exactly one call queued or in service, with the callee it waits for. */
  ghost predicate Counted(s: State) {
    forall t, c: nat | 0 <= t < |s.threads| ::
      From(s.threads[t].calls, c) + s.threads[t].serving[c] == One(Is(s, c, IdleCaller) && s.threads[c].wait == InCall(t))
  }

  ghost predicate Called(s: State) {
    Counted(s) && forall t | 0 <= t < |s.threads| :: Addressed(s, t)
  }

  /** The calls queued at t are for t. */
  ghost predicate Addressed(s: State, t: nat)
    requires t < |s.threads|
  {
    forall r | r in s.threads[t].calls :: r.callee == t
  }

  /** The call thread t is in the middle of can be completed at once. */
  predicate CanFinish(s: State, t: nat)
    requires t < |s.threads|
  {
    match s.threads[t].wait
    case NoWait => true
    case InSleep(_) => true
    case InLock(m) => m < |s.mutexes| && s.mutexes[m].owner == Some(t)
    case InCall(_) => s.threads[t].ret != EPENDING
    case InListen => s.threads[t].calls != []
  }

  /** A blocked thread waits for something that has not happened; any other can go on. */
  predicate Settled(s: State, t: nat)
    requires t < |s.threads|
  {
    var th := s.threads[t];
    match th.status
    case Terminated => th.wait == NoWait
    case IdleSleep => th.wait.InSleep?
    case IdleMutex => th.wait.InLock? && th.wait.mutex < |s.mutexes| && s.mutexes[th.wait.mutex].owner != Some(t)
    case IdleCallee => th.wait == InListen && th.calls == []
    case IdleCaller => th.wait.InCall? && th.wait.callee < |s.threads| && th.ret == EPENDING
    case _ => CanFinish(s, t)
  }

  /** Only the current thread runs; `run` is false inside kmt_schedule, when none does. */
  ghost predicate OneRuns(s: State, run: bool) {
    forall t: nat | t < |s.threads| :: s.threads[t].status == Running <==> run && t == s.current
  }

  ghost predicate Places(s: State, run: bool) {
    Shape(s) && Readied(s) && Mapped(s) && Asleep(s) && Locked(s) && Called(s) && OneRuns(s, run)
  }

  ghost predicate Core(s: State, run: bool) {
    Places(s, run) && forall t: nat | t < |s.threads| :: Settled(s, t)
  }

  /** The idle thread is always ready to run. */
  ghost predicate IdleRuns(s: State) {
    s.idle.Some? ==>
      s.idle.value < |s.threads| && s.threads[s.idle.value].status in {Ready, Running} && s.threads[s.idle.value].wait == NoWait
  }

  ghost predicate Inv(s: State) {
    Core(s, true) && IdleRuns(s)
  }

  // ---------- counting ----------

  lemma CountSnoc(q: seq<nat>, x: nat, t: nat)
    ensures Count(q + [x], t) == Count(q, t) + One(x == t)
  {
  }

  lemma CountTail(q: seq<nat>, t: nat)
    requires q != []
    ensures Count(q, t) == Count(q[1..], t) + One(q[0] == t)
  {
    assert q == [q[0]] + q[1..];
  }

  lemma {:induction false} FromSnoc(calls: seq<Rpc>, r: Rpc, c: nat)
    ensures From(calls + [r], c) == From(calls, c) + One(r.caller == c)
  {
    if calls != [] {
      assert (calls + [r])[1..] == calls[1..] + [r];
      FromSnoc(calls[1..], r, c);
    }
  }

  // ---------- what a change to one thread leaves alone ----------

  /** r has the threads of s, but for thread t. */
  ghost predicate Edited(s: State, r: State, t: nat) {
    && t < |s.threads| == |r.threads|
    && forall u: nat | u < |s.threads| && u != t :: r.threads[u] == s.threads[u]
  }

  lemma ReadiedEdit(s: State, r: State, t: nat)
    requires Readied(s) && Mapped(s) && Edited(s, r, t) && r.ready == s.ready && r.bitmap == s.bitmap
    requires Is(s, t, Ready) == Is(r, t, Ready) && (Is(s, t, Ready) ==> s.threads[t].home == r.threads[t].home)
    ensures Readied(r) && Mapped(r)
  {
    forall p, u: nat | 0 <= p < QUEUES ensures Count(r.ready[p], u) == One(Is(r, u, Ready) && r.threads[u].home == p) {
      assert Count(s.ready[p], u) == One(Is(s, u, Ready) && s.threads[u].home == p);
    }
  }

  lemma AsleepEdit(s: State, r: State, t: nat)
    requires Asleep(s) && Edited(s, r, t) && r.sleepers == s.sleepers
    requires Is(s, t, IdleSleep) == Is(r, t, IdleSleep) && (Is(s, t, IdleSleep) ==> s.threads[t].wait == r.threads[t].wait)
    ensures Asleep(r)
  {
    forall u: nat, w: nat
      ensures multiset(r.sleepers)[Request(u, w)] == One(Is(r, u, IdleSleep) && r.threads[u].wait == InSleep(w))
    {
      assert multiset(s.sleepers)[Request(u, w)] == One(Is(s, u, IdleSleep) && s.threads[u].wait == InSleep(w));
    }
  }

  lemma LockedEdit(s: State, r: State, t: nat)
    requires Locked(s) && Edited(s, r, t) && r.mutexes == s.mutexes && r.mutexCount == s.mutexCount
    requires Is(s, t, IdleMutex) == Is(r, t, IdleMutex) && (Is(s, t, IdleMutex) ==> s.threads[t].wait == r.threads[t].wait)
    ensures Locked(r)
  {
    forall m, u: nat | 0 <= m < KMT_MAX_MUTEXES
      ensures Count(r.mutexes[m].waiting, u) == One(Is(r, u, IdleMutex) && r.threads[u].wait == InLock(m))
    {
      assert Count(s.mutexes[m].waiting, u) == One(Is(s, u, IdleMutex) && s.threads[u].wait == InLock(m));
    }
    forall m | 0 <= m < KMT_MAX_MUTEXES ensures Sound(r, r.mutexes[m]) { assert Sound(s, s.mutexes[m]); }
  }

  lemma CalledEdit(s: State, r: State, t: nat)
    requires Called(s) && Edited(s, r, t)
    requires r.threads[t].calls == s.threads[t].calls && r.threads[t].serving == s.threads[t].serving
    requires Is(s, t, IdleCaller) == Is(r, t, IdleCaller) && (Is(s, t, IdleCaller) ==> s.threads[t].wait == r.threads[t].wait)
    ensures Called(r)
  {
    forall u, c: nat | 0 <= u < |r.threads|
      ensures From(r.threads[u].calls, c) + r.threads[u].serving[c] == One(Is(r, c, IdleCaller) && r.threads[c].wait == InCall(u))
    {
      assert From(s.threads[u].calls, c) + s.threads[u].serving[c] == One(Is(s, c, IdleCaller) && s.threads[c].wait == InCall(u));
    }
    forall u | 0 <= u < |r.threads| ensures Addressed(r, u) { assert Addressed(s, u); }
  }

  lemma SettledEdit(s: State, r: State, t: nat, u: nat)
    requires u < |s.threads| && Settled(s, u) && Edited(s, r, t) && r.mutexes == s.mutexes && u != t
    ensures Settled(r, u)
  {
  }

  lemma SettledAll(s: State, r: State, t: nat)
    requires (forall u: nat | u < |s.threads| :: Settled(s, u)) && Edited(s, r, t) && r.mutexes == s.mutexes
    requires t < |s.threads| == |r.threads| && Settled(r, t)
    ensures forall u: nat | u < |r.threads| :: Settled(r, u)
  {
    forall u: nat | u < |r.threads| ensures Settled(r, u) {
      if u != t { SettledEdit(s, r, t, u); }
    }
  }

  /** A thread that did not sleep goes to sleep with a request of its own. */
  lemma AsleepPush(s: State, r: State, c: nat, time: nat)
    requires Asleep(s) && Edited(s, r, c) && multiset(r.sleepers) == multiset(s.sleepers) + multiset{Request(c, time)}
    requires !Is(s, c, IdleSleep) && Is(r, c, IdleSleep) && r.threads[c].wait == InSleep(time)
    ensures Asleep(r)
  {
    forall u: nat, w: nat
      ensures multiset(r.sleepers)[Request(u, w)] == One(Is(r, u, IdleSleep) && r.threads[u].wait == InSleep(w))
    {
      assert multiset(s.sleepers)[Request(u, w)] == One(Is(s, u, IdleSleep) && s.threads[u].wait == InSleep(w));
    }
  }

  /** A thread that waited for no mutex joins the queue of an owned one. */
  lemma LockedJoin(s: State, r: State, c: nat, m: nat)
    requires Locked(s) && Edited(s, r, c) && m < KMT_MAX_MUTEXES && s.mutexes[m].owner.Some? && r.mutexCount == s.mutexCount
    requires r.mutexes == s.mutexes[m := s.mutexes[m].(waiting := s.mutexes[m].waiting + [c])]
    requires !Is(s, c, IdleMutex) && Is(r, c, IdleMutex) && r.threads[c].wait == InLock(m)
    ensures Locked(r)
  {
    forall k, u: nat | 0 <= k < KMT_MAX_MUTEXES
      ensures Count(r.mutexes[k].waiting, u) == One(Is(r, u, IdleMutex) && r.threads[u].wait == InLock(k))
    {
      assert Count(s.mutexes[k].waiting, u) == One(Is(s, u, IdleMutex) && s.threads[u].wait == InLock(k));
      CountSnoc(s.mutexes[m].waiting, c, u);
    }
    forall k | 0 <= k < KMT_MAX_MUTEXES ensures Sound(r, r.mutexes[k]) { assert Sound(s, s.mutexes[k]); }
  }

  /** A thread that called nobody queues a call and waits for it. */
  lemma CalledJoin(s: State, q: State, r: State, c: nat, callee: nat, rpc: Rpc)
    requires Called(s) && callee < |s.threads| && c < |s.threads| && rpc.caller == c && rpc.callee == callee
    requires q.threads == s.threads[callee := s.threads[callee].(calls := s.threads[callee].calls + [rpc])] && Edited(q, r, c)
    requires r.threads[c].calls == q.threads[c].calls && r.threads[c].serving == q.threads[c].serving
    requires !Is(s, c, IdleCaller) && Is(r, c, IdleCaller) && r.threads[c].wait == InCall(callee)
    ensures Called(r)
  {
    forall t, d: nat | 0 <= t < |r.threads|
      ensures From(r.threads[t].calls, d) + r.threads[t].serving[d] == One(Is(r, d, IdleCaller) && r.threads[d].wait == InCall(t))
    {
      CountJoin(s, r, c, callee, rpc, t, d);
    }
    forall t | 0 <= t < |r.threads| ensures Addressed(r, t) { AddressedJoin(s, r, callee, rpc, t); }
  }

  lemma CountJoin(s: State, r: State, c: nat, callee: nat, rpc: Rpc, t: nat, d: nat)
    requires Called(s) && t < |s.threads| == |r.threads| && callee < |s.threads| && rpc.caller == c
    requires r.threads[t].calls == (if t == callee then s.threads[t].calls + [rpc] else s.threads[t].calls) && r.threads[t].serving == s.threads[t].serving
    requires if d == c then !Is(s, c, IdleCaller) && Is(r, c, IdleCaller) && r.threads[c].wait == InCall(callee)
      else Is(r, d, IdleCaller) == Is(s, d, IdleCaller) && (Is(s, d, IdleCaller) ==> r.threads[d].wait == s.threads[d].wait)
    ensures From(r.threads[t].calls, d) + r.threads[t].serving[d] == One(Is(r, d, IdleCaller) && r.threads[d].wait == InCall(t))
  {
    assert From(s.threads[t].calls, d) + s.threads[t].serving[d] == One(Is(s, d, IdleCaller) && s.threads[d].wait == InCall(t));
    FromSnoc(s.threads[callee].calls, rpc, d);
  }

  lemma AddressedJoin(s: State, r: State, callee: nat, rpc: Rpc, t: nat)
    requires Called(s) && callee < |s.threads| == |r.threads| && rpc.callee == callee && t < |s.threads|
    requires r.threads[t].calls == if t == callee then s.threads[t].calls + [rpc] else s.threads[t].calls
    ensures Addressed(r, t)
  {
    assert Addressed(s, t);
  }

  /** The places other than the ready queues do not care about a thread that goes between statuses outside them. */
  lemma ElsewhereEdit(s: State, r: State, t: nat)
    requires Asleep(s) && Locked(s) && Called(s) && Edited(s, r, t) && r.sleepers == s.sleepers && r.mutexes == s.mutexes && r.mutexCount == s.mutexCount
    requires r.threads[t].calls == s.threads[t].calls && r.threads[t].serving == s.threads[t].serving
    requires s.threads[t].status !in {IdleSleep, IdleMutex, IdleCaller} && r.threads[t].status !in {IdleSleep, IdleMutex, IdleCaller}
    ensures Asleep(r) && Locked(r) && Called(r)
  {
    AsleepEdit(s, r, t);
    LockedEdit(s, r, t);
    CalledEdit(s, r, t);
  }

  // ---------- waking and dispatching ----------

  lemma WakeReadied(s: State, t: nat)
    requires Shape(s) && Readied(s) && Mapped(s) && Is(s, t, Idle)
    ensures Readied(Wake(s, t)) && Mapped(Wake(s, t))
  {
    var r := Wake(s, t);
    var p := s.threads[t].priority;
    forall q, u: nat | 0 <= q < QUEUES ensures Count(r.ready[q], u) == One(Is(r, u, Ready) && r.threads[u].home == q) {
      CountSnoc(s.ready[p], t, u);
      assert Count(s.ready[q], u) == One(Is(s, u, Ready) && s.threads[u].home == q);
    }
    forall q: nat ensures Bit(r.bitmap, q) <==> q == p || Bit(s.bitmap, q) { BitOfSet(s.bitmap, p, q); }
  }

  /** Waking an idle thread puts it in its ready queue. */
  lemma WakeKeeps(s: State, t: nat, run: bool)
    requires Core(s, run) && Is(s, t, Idle)
    ensures Core(Wake(s, t), run)
  {
    var r := Wake(s, t);
    WakeReadied(s, t);
    ElsewhereEdit(s, r, t);
    forall u: nat | u < |r.threads| ensures Settled(r, u) && (r.threads[u].status == Running <==> run && u == r.current) {
      assert Settled(s, u);
      if u != t { SettledEdit(s, r, t, u); }
    }
  }

  lemma TopBit(b: nat, h: nat) returns (p: nat)
    requires Bit(b, h)
    ensures b > 0 && p == BitLen(b) - 1 && Bit(b, p) && forall q | q > p :: !Bit(b, q)
  {
    SomeBit(b, h);
    HighestBit(b);
    p := BitLen(b) - 1;
  }

  /** The highest bit of the bitmap names a queue whose oldest thread is ready. */
  lemma Highest(s: State, t: nat) returns (p: nat)
    requires Readied(s) && Mapped(s) && Is(s, t, Ready)
    ensures s.bitmap > 0 && p == BitLen(s.bitmap) - 1 && p < QUEUES && s.ready[p] != []
    ensures Is(s, s.ready[p][0], Ready) && s.threads[s.ready[p][0]].home == p
    ensures forall q | p < q < QUEUES :: s.ready[q] == []
  {
    var h := s.threads[t].home;
    assert Count(s.ready[h], t) == 1;
    assert s.ready[h] != [];
    p := TopBit(s.bitmap, h);
    CountTail(s.ready[p], s.ready[p][0]);
    assert Count(s.ready[p], s.ready[p][0]) > 0;
  }

  /** The first thread of queue p leaves it and runs. */
  lemma TakenCount(s: State, r: State, p: nat, q: nat, u: nat)
    requires Readied(s) && p < QUEUES && q < QUEUES && s.ready[p] != [] && r.ready == s.ready[p := s.ready[p][1..]]
    requires var t := s.ready[p][0]; t < |s.threads| && s.threads[t].home == p && Is(s, t, Ready) && r.threads == s.threads[t := s.threads[t].(status := Running)]
    ensures Count(r.ready[q], u) == One(Is(r, u, Ready) && r.threads[u].home == q)
  {
    CountTail(s.ready[p], u);
    assert Count(s.ready[q], u) == One(Is(s, u, Ready) && s.threads[u].home == q);
  }

  lemma DispatchReadied(s: State, t: nat)
    requires Shape(s) && Readied(s) && Mapped(s) && Is(s, t, Ready)
    ensures Dispatch(s).Some? && Readied(Dispatch(s).value) && Mapped(Dispatch(s).value)
    ensures var r := Dispatch(s).value; Edited(s, r, r.current) && Is(s, r.current, Ready) && r == s.(threads := r.threads, current := r.current, ready := r.ready, bitmap := r.bitmap)
    ensures var r := Dispatch(s).value; r.threads[r.current] == s.threads[r.current].(status := Running)
  {
    var p := Highest(s, t);
    var r := Dispatch(s).value;
    forall q, u: nat | 0 <= q < QUEUES ensures Count(r.ready[q], u) == One(Is(r, u, Ready) && r.threads[u].home == q) {
      TakenCount(s, r, p, q, u);
    }
    TakenMapped(s, r, p);
  }

  lemma TakenMapped(s: State, r: State, p: nat)
    requires Mapped(s) && p < QUEUES && s.ready[p] != [] && r.ready == s.ready[p := s.ready[p][1..]]
    requires r.bitmap == if s.ready[p][1..] == [] then ClearBit(s.bitmap, p) else s.bitmap
    ensures Mapped(r)
  {
    forall q: nat ensures Bit(ClearBit(s.bitmap, p), q) <==> q != p && Bit(s.bitmap, q) { BitOfClear(s.bitmap, p, q); }
  }

  /** With a ready thread there is a next one to run, and the state is sound again. */
  lemma DispatchKeeps(s: State, t: nat)
    requires Core(s, false) && Is(s, t, Ready)
    ensures Dispatch(s).Some? && Core(Dispatch(s).value, true)
  {
    DispatchReadied(s, t);
    var r := Dispatch(s).value;
    var n := r.current;
    ElsewhereEdit(s, r, n);
    forall u: nat | u < |r.threads| ensures Settled(r, u) && (r.threads[u].status == Running <==> u == n) {
      assert Settled(s, u);
      if u != n { SettledEdit(s, r, n, u); }
    }
  }

  /** What kmt_schedule does once the current thread is off the CPU. */
  lemma Switch(s: State)
    requires Core(s, false) && IdleRuns(s) && s.idle.Some?
    ensures Dispatch(s).Some? && Inv(Dispatch(s).value)
  {
    var i := s.idle.value;
    assert Is(s, i, Ready);
    DispatchReadied(s, i);
    DispatchKeeps(s, i);
  }

  // ---------- the current thread gives up the CPU ----------

  /** Off the CPU without waiting for anything. */
  lemma YieldKeeps(s: State, priority: nat)
    requires Core(s, true) && priority < QUEUES
    ensures Core(Put(s, s.current, s.threads[s.current].(status := Idle, priority := priority)), false)
  {
    var r := Put(s, s.current, s.threads[s.current].(status := Idle, priority := priority));
    ReadiedEdit(s, r, s.current);
    ElsewhereEdit(s, r, s.current);
    forall u: nat | u < |r.threads| ensures Settled(r, u) {
      assert Settled(s, u);
      if u != s.current { SettledEdit(s, r, s.current, u); }
    }
  }

  lemma RetireReady(s: State)
    requires Core(s, true)
    ensures Core(Retire(s, Ready), false)
  {
    var th := s.threads[s.current];
    YieldKeeps(s, th.basePriority);
    WakeKeeps(Put(s, s.current, th.(status := Idle, priority := th.basePriority)), s.current, false);
  }

  lemma RetireTerminated(s: State)
    requires Core(s, true) && s.threads[s.current].wait == NoWait
    ensures Core(WithStatus(s, s.current, Terminated), false)
  {
    var r := WithStatus(s, s.current, Terminated);
    ReadiedEdit(s, r, s.current);
    ElsewhereEdit(s, r, s.current);
    forall u: nat | u < |r.threads| ensures Settled(r, u) {
      assert Settled(s, u);
      if u != s.current { SettledEdit(s, r, s.current, u); }
    }
  }

  lemma RetireCallee(s: State)
    requires Core(s, true) && s.threads[s.current].calls == []
    ensures Core(Put(s, s.current, s.threads[s.current].(wait := InListen, status := IdleCallee)), false)
  {
    var r := Put(s, s.current, s.threads[s.current].(wait := InListen, status := IdleCallee));
    ReadiedEdit(s, r, s.current);
    ElsewhereEdit(s, r, s.current);
    forall u: nat | u < |r.threads| ensures Settled(r, u) {
      assert Settled(s, u);
      if u != s.current { SettledEdit(s, r, s.current, u); }
    }
  }

  lemma SleepPlaces(s: State, r: State, c: nat, time: nat)
    requires Places(s, true) && c == s.current && r.threads == s.threads[c := s.threads[c].(wait := InSleep(time), status := IdleSleep)]
    requires r == s.(threads := r.threads, sleepers := r.sleepers)
    requires multiset(r.sleepers) == multiset(s.sleepers) + multiset{Request(c, time)}
    ensures Readied(r) && Mapped(r) && Asleep(r) && Locked(r) && Called(r)
  {
    ReadiedEdit(s, r, c);
    AsleepPush(s, r, c, time);
    LockedEdit(s, r, c);
    CalledEdit(s, r, c);
  }

  lemma RetireSleep(s: State, time: nat)
    requires Core(s, true)
    ensures Core(Retire(AddSleeper(s, time), IdleSleep), false)
  {
    var c := s.current;
    var r := Retire(AddSleeper(s, time), IdleSleep);
    PushKeeps(s.sleepers, Request(c, time));
    SleepPlaces(s, r, c, time);
    SettledAll(s, r, c);
  }

  lemma RetireMutex(s: State, m: nat)
    requires Core(s, true) && m < KMT_MAX_MUTEXES && s.mutexes[m].owner.Some? && s.mutexes[m].owner.value != s.current
    ensures Core(Retire(Enqueue(s, m), IdleMutex), false)
  {
    var c := s.current;
    var r := Retire(Enqueue(s, m), IdleMutex);
    ReadiedEdit(s, r, c);
    AsleepEdit(s, r, c);
    CalledEdit(s, r, c);
    LockedJoin(s, r, c, m);
    forall u: nat | u < |r.threads| ensures Settled(r, u) { assert Settled(s, u); }
  }

  /** The state after the current thread has queued a call and waits, before the callee is woken. */
  function Calling(s: State, callee: nat, rpc: Rpc): State
    requires Shape(s) && callee < |s.threads|
  {
    WithStatus(AwaitReturn(Queue(s, callee, rpc), callee), s.current, IdleCaller)
  }

  /** Only a callee that was waiting for its first call is left unsettled. */
  lemma RetireCaller(s: State, callee: nat, rpc: Rpc)
    requires Core(s, true) && callee < |s.threads| && rpc.caller == s.current && rpc.callee == callee
    ensures Places(Calling(s, callee, rpc), false)
    ensures forall u: nat | u < |s.threads| && (u != callee || s.threads[callee].status != IdleCallee) :: Settled(Calling(s, callee, rpc), u)
  {
    var c := s.current;
    var r := Calling(s, callee, rpc);
    QueueElsewhere(s, callee, rpc);
    CalledJoin(s, Queue(s, callee, rpc), r, c, callee, rpc);
    forall u: nat | u < |s.threads| && (u != callee || s.threads[callee].status != IdleCallee) ensures Settled(r, u) {
      assert Settled(s, u);
    }
  }

  lemma QueueElsewhere(s: State, callee: nat, rpc: Rpc)
    requires Core(s, true) && callee < |s.threads|
    ensures var r := Calling(s, callee, rpc); Readied(r) && Mapped(r) && Asleep(r) && Locked(r)
  {
    var c := s.current;
    var q := Queue(s, callee, rpc);
    var r := Calling(s, callee, rpc);
    ReadiedEdit(s, q, callee);
    AsleepEdit(s, q, callee);
    LockedEdit(s, q, callee);
    ReadiedEdit(q, r, c);
    AsleepEdit(q, r, c);
    LockedEdit(q, r, c);
  }
}
