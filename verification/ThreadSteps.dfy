/** Every call of the thread system keeps the invariant, and none of its panics can be reached. */
module ThreadSteps {
  import opened Bits
  import opened Options
  import opened SleepHeap
  import opened Threads
  import opened ThreadInv

  // ---------- blocked threads are released ----------

  /** The earliest sleeper leaves the heap. */
  lemma SleeperLeaves(s: State, run: bool)
    requires Core(s, run) && |s.sleepers| > 0
    ensures Is(s, s.sleepers[0].thread, IdleSleep)
    ensures var r := WithStatus(s, s.sleepers[0].thread, Idle).(sleepers := Pop(s.sleepers)); Shape(r) && Core(r, run)
  {
    var x := s.sleepers[0];
    var t := x.thread;
    assert x == Request(t, x.time) && multiset(s.sleepers)[x] > 0;
    var r := WithStatus(s, t, Idle).(sleepers := Pop(s.sleepers));
    PopKeeps(s.sleepers);
    ReadiedEdit(s, r, t);
    LockedEdit(s, r, t);
    CalledEdit(s, r, t);
    AsleepPop(s, r, t, x.time);
    PopShape(s);
    forall u: nat | u < |r.threads| ensures Settled(r, u) {
      assert Settled(s, u);
      if u != t { SettledEdit(s, r, t, u); }
    }
  }

  lemma PopShape(s: State)
    requires Shape(s) && |s.sleepers| > 0
    ensures forall r | r in Pop(s.sleepers) :: r.thread < |s.threads|
  {
    PopKeeps(s.sleepers);
    forall r | r in Pop(s.sleepers) ensures r.thread < |s.threads| {
      assert r in multiset(Pop(s.sleepers));
      assert r in multiset(s.sleepers);
    }
  }

  lemma AsleepPop(s: State, r: State, t: nat, time: nat)
    requires Asleep(s) && Edited(s, r, t) && multiset(r.sleepers) == multiset(s.sleepers) - multiset{Request(t, time)}
    requires Is(s, t, IdleSleep) && s.threads[t].wait == InSleep(time) && !Is(r, t, IdleSleep)
    ensures Asleep(r)
  {
    forall u: nat, w: nat
      ensures multiset(r.sleepers)[Request(u, w)] == One(Is(r, u, IdleSleep) && r.threads[u].wait == InSleep(w))
    {
      assert multiset(s.sleepers)[Request(u, w)] == One(Is(s, u, IdleSleep) && s.threads[u].wait == InSleep(w));
    }
  }

  /** One round of the wake-up loop. */
  lemma WakeFirstKeeps(s: State, run: bool)
    requires Core(s, run) && |s.sleepers| > 0
    ensures Core(WakeFirst(s), run)
  {
    SleeperLeaves(s, run);
    var t := s.sleepers[0].thread;
    WakeKeeps(WithStatus(s, t, Idle).(sleepers := Pop(s.sleepers)), t, run);
  }

  lemma {:induction false} WakeSleepersKeeps(s: State, now: nat, run: bool)
    requires Core(s, run)
    ensures Core(WakeSleepers(s, now), run)
    decreases |s.sleepers|
  {
    if |s.sleepers| > 0 && s.sleepers[0].time <= now {
      PopKeeps(s.sleepers);
      WakeFirstKeeps(s, run);
      WakeSleepersKeeps(WakeFirst(s), now, run);
    }
  }

  /** The first waiter of a mutex, which is waiting for it and so not terminated. */
  lemma FirstWaiter(s: State, m: nat)
    requires Core(s, true) && m < KMT_MAX_MUTEXES && s.mutexes[m].waiting != []
    ensures Is(s, s.mutexes[m].waiting[0], IdleMutex) && s.threads[s.mutexes[m].waiting[0]].wait == InLock(m)
  {
    var w := s.mutexes[m].waiting[0];
    CountTail(s.mutexes[m].waiting, w);
    assert Count(s.mutexes[m].waiting, w) > 0;
  }

  /** The current thread hands its mutex to the first waiter. */
  lemma ReleaseKeeps(s: State, m: nat)
    requires Core(s, true) && m < KMT_MAX_MUTEXES && s.mutexes[m].waiting != []
    requires s.mutexes[m].owner == Some(s.current) && s.threads[s.current].wait == NoWait
    ensures Is(s, s.mutexes[m].waiting[0], IdleMutex) && Core(Release(s, m, 0), true)
  {
    FirstWaiter(s, m);
    var w := s.mutexes[m].waiting[0];
    var r := Release(s, m, 0);
    ReadiedEdit(s, r, w);
    AsleepEdit(s, r, w);
    CalledEdit(s, r, w);
    LockedLeave(s, r, m, w);
    forall u: nat | u < |r.threads| ensures Settled(r, u) { assert Settled(s, u); }
  }

  lemma LockedLeave(s: State, r: State, m: nat, w: nat)
    requires Locked(s) && Edited(s, r, w) && m < KMT_MAX_MUTEXES && r.mutexCount == s.mutexCount
    requires s.mutexes[m].waiting != [] && s.mutexes[m].waiting[0] == w
    requires r.mutexes == s.mutexes[m := s.mutexes[m].(owner := Some(w), waiting := s.mutexes[m].waiting[1..])]
    requires Is(s, w, IdleMutex) && s.threads[w].wait == InLock(m) && !Is(r, w, IdleMutex)
    ensures Locked(r)
  {
    forall k, u: nat | 0 <= k < KMT_MAX_MUTEXES
      ensures Count(r.mutexes[k].waiting, u) == One(Is(r, u, IdleMutex) && r.threads[u].wait == InLock(k))
    {
      assert Count(s.mutexes[k].waiting, u) == One(Is(s, u, IdleMutex) && s.threads[u].wait == InLock(k));
      CountTail(s.mutexes[m].waiting, u);
    }
    forall k | 0 <= k < KMT_MAX_MUTEXES ensures Sound(r, r.mutexes[k]) { assert Sound(s, s.mutexes[k]); }
  }

  /** A callee that was waiting for its first call has got one. */
  lemma CalleeReleased(x: State, callee: nat)
    requires Places(x, false) && Is(x, callee, IdleCallee) && x.threads[callee].wait == InListen && x.threads[callee].calls != []
    requires forall u: nat | u < |x.threads| && u != callee :: Settled(x, u)
    ensures Core(WithStatus(x, callee, Idle), false)
  {
    var r := WithStatus(x, callee, Idle);
    ReadiedEdit(x, r, callee);
    ElsewhereEdit(x, r, callee);
    forall u: nat | u < |r.threads| ensures Settled(r, u) {
      if u != callee { SettledEdit(x, r, callee, u); }
    }
  }

  /** A caller gets the answer to a call in service. */
  lemma RespondKeeps(s: State, caller: nat, code: int)
    requires Core(s, true) && caller in s.threads[s.current].serving && code != EPENDING
    ensures Is(s, caller, IdleCaller) && Core(Respond(s, caller, code), true) && Is(Respond(s, caller, code), caller, Idle)
  {
    var c := s.current;
    assert From(s.threads[c].calls, caller) + s.threads[c].serving[caller] == One(Is(s, caller, IdleCaller) && s.threads[caller].wait == InCall(c));
    var s1 := Put(s, caller, s.threads[caller].(ret := code, status := Idle));
    var r := Respond(s, caller, code);
    assert Edited(s, s1, caller) && Edited(s1, r, c);
    TwoEdits(s, s1, r, caller, c);
    CalledLeave(s, r, c, caller);
    forall u: nat | u < |r.threads| ensures Settled(r, u) { assert Settled(s, u); }
  }

  lemma TwoEdits(s: State, s1: State, r: State, a: nat, b: nat)
    requires Readied(s) && Mapped(s) && Asleep(s) && Locked(s) && Edited(s, s1, a) && Edited(s1, r, b)
    requires r == s.(threads := r.threads) && s1 == s.(threads := s1.threads)
    requires Is(s, a, IdleCaller) && Is(s1, a, Idle) && s1.threads[b].status == r.threads[b].status
    requires s1.threads[b].wait == r.threads[b].wait && s1.threads[b].home == r.threads[b].home
    ensures Readied(r) && Mapped(r) && Asleep(r) && Locked(r)
  {
    ReadiedEdit(s, s1, a);
    ReadiedEdit(s1, r, b);
    AsleepEdit(s, s1, a);
    AsleepEdit(s1, r, b);
    LockedEdit(s, s1, a);
    LockedEdit(s1, r, b);
  }

  lemma CalledLeave(s: State, r: State, c: nat, caller: nat)
    requires Called(s) && c < |s.threads| && caller < |s.threads| == |r.threads| && c != caller
    requires forall u: nat | u < |s.threads| && u != c && u != caller :: r.threads[u] == s.threads[u]
    requires r.threads[c] == s.threads[c].(serving := s.threads[c].serving - multiset{caller})
    requires r.threads[caller].calls == s.threads[caller].calls && r.threads[caller].serving == s.threads[caller].serving
    requires Is(s, caller, IdleCaller) && s.threads[caller].wait == InCall(c) && !Is(r, caller, IdleCaller)
    requires caller in s.threads[c].serving
    ensures Called(r)
  {
    forall t, d: nat | 0 <= t < |r.threads|
      ensures From(r.threads[t].calls, d) + r.threads[t].serving[d] == One(Is(r, d, IdleCaller) && r.threads[d].wait == InCall(t))
    {
      assert From(s.threads[t].calls, d) + s.threads[t].serving[d] == One(Is(s, d, IdleCaller) && s.threads[d].wait == InCall(t));
    }
    forall t | 0 <= t < |r.threads| ensures Addressed(r, t) { assert Addressed(s, t); }
  }

  // ---------- local changes ----------

  /** A new thread is in no place. */
  lemma CreateKeeps(s: State, th: Thread)
    requires Core(s, true) && |s.threads| < MAX_KERNEL_THREADS && th.status == Idle && th.wait == NoWait
    requires th.priority < QUEUES && th.basePriority < QUEUES && th.calls == [] && th.serving == multiset{}
    ensures Core(s.(threads := s.threads + [th]), true)
  {
    var n, r := |s.threads|, s.(threads := s.threads + [th]);
    CreateQueued(s, th);
    CreateElsewhere(s, th);
    forall t: nat | t < |r.threads| ensures Settled(r, t) && (r.threads[t].status == Running <==> t == r.current) {
      if t < n { assert Settled(s, t); }
    }
  }

  lemma CreateQueued(s: State, th: Thread)
    requires Core(s, true) && th.status == Idle && th.wait == NoWait
    ensures var r := s.(threads := s.threads + [th]); Readied(r) && Mapped(r) && Asleep(r)
  {
    var r := s.(threads := s.threads + [th]);
    forall p, t: nat | 0 <= p < QUEUES ensures Count(r.ready[p], t) == One(Is(r, t, Ready) && r.threads[t].home == p) {
      assert Count(s.ready[p], t) == One(Is(s, t, Ready) && s.threads[t].home == p);
    }
    forall t: nat, w: nat ensures multiset(r.sleepers)[Request(t, w)] == One(Is(r, t, IdleSleep) && r.threads[t].wait == InSleep(w)) {
      assert multiset(s.sleepers)[Request(t, w)] == One(Is(s, t, IdleSleep) && s.threads[t].wait == InSleep(w));
    }
  }

  lemma CreateElsewhere(s: State, th: Thread)
    requires Core(s, true) && th.status == Idle && th.wait == NoWait && th.calls == [] && th.serving == multiset{}
    ensures Locked(s.(threads := s.threads + [th])) && Called(s.(threads := s.threads + [th]))
  {
    var r := s.(threads := s.threads + [th]);
    forall m, t: nat | 0 <= m < KMT_MAX_MUTEXES
      ensures Count(r.mutexes[m].waiting, t) == One(Is(r, t, IdleMutex) && r.threads[t].wait == InLock(m))
    {
      assert Count(s.mutexes[m].waiting, t) == One(Is(s, t, IdleMutex) && s.threads[t].wait == InLock(m));
    }
    forall m | 0 <= m < KMT_MAX_MUTEXES ensures Sound(r, r.mutexes[m]) { assert Sound(s, s.mutexes[m]); }
    forall c: nat | Is(s, c, IdleCaller) ensures s.threads[c].wait.InCall? && s.threads[c].wait.callee < |s.threads| { assert Settled(s, c); }
    CreateCalled(s, r, th);
  }

  lemma CreateCalled(s: State, r: State, th: Thread)
    requires Called(s) && (forall c: nat | Is(s, c, IdleCaller) && s.threads[c].wait.InCall? :: s.threads[c].wait.callee < |s.threads|)
    requires r.threads == s.threads + [th] && th.status == Idle && th.calls == [] && th.serving == multiset{}
    ensures Called(r)
  {
    var n := |s.threads|;
    forall t, c: nat | 0 <= t < |r.threads|
      ensures From(r.threads[t].calls, c) + r.threads[t].serving[c] == One(Is(r, c, IdleCaller) && r.threads[c].wait == InCall(t))
    {
      assert t < n ==> From(s.threads[t].calls, c) + s.threads[t].serving[c] == One(Is(s, c, IdleCaller) && s.threads[c].wait == InCall(t));
      assert c < n ==> r.threads[c] == s.threads[c];
    }
    forall t | 0 <= t < |r.threads| ensures Addressed(r, t) { assert t < n ==> Addressed(s, t); }
  }

  /** A mutex nobody waits for changes hands, is created or freed. */
  lemma MutexKeeps(s: State, m: nat, x: Mutex, count: nat)
    requires Core(s, true) && m < KMT_MAX_MUTEXES && s.mutexes[m].waiting == [] && x.waiting == []
    requires s.mutexCount <= count <= KMT_MAX_MUTEXES && (x.used ==> m < count)
    requires x.owner.Some? ==> x.used && x.owner.value < |s.threads|
    requires s.mutexes[m].owner != x.owner ==> s.mutexes[m].owner == None || (s.mutexes[m].owner == Some(s.current) && s.threads[s.current].wait == NoWait)
    ensures Core(PutMutex(s, m, x).(mutexCount := count), true)
  {
    var r := PutMutex(s, m, x).(mutexCount := count);
    SameThreads(s, r);
    MutexLocked(s, r, m, x);
    forall t: nat | t < |r.threads| ensures Settled(r, t) {
      assert Settled(s, t);
      assert Count(s.mutexes[m].waiting, t) == One(Is(s, t, IdleMutex) && s.threads[t].wait == InLock(m));
    }
  }

  lemma SameThreads(s: State, r: State)
    requires Readied(s) && Mapped(s) && Asleep(s) && Called(s)
    requires r.threads == s.threads && s.threads != [] && r.ready == s.ready && r.bitmap == s.bitmap && r.sleepers == s.sleepers
    ensures Readied(r) && Mapped(r) && Asleep(r) && Called(r)
  {
    ReadiedEdit(s, r, 0);
    AsleepEdit(s, r, 0);
    CalledEdit(s, r, 0);
  }

  lemma MutexLocked(s: State, r: State, m: nat, x: Mutex)
    requires Locked(s) && m < KMT_MAX_MUTEXES && s.mutexes[m].waiting == [] && x.waiting == []
    requires r.threads == s.threads && r.mutexes == s.mutexes[m := x] && s.mutexCount <= r.mutexCount && (x.used ==> m < r.mutexCount)
    requires x.owner.Some? ==> x.used && x.owner.value < |s.threads|
    ensures Locked(r)
  {
    forall k, t: nat | 0 <= k < KMT_MAX_MUTEXES
      ensures Count(r.mutexes[k].waiting, t) == One(Is(r, t, IdleMutex) && r.threads[t].wait == InLock(k))
    {
      assert Count(s.mutexes[k].waiting, t) == One(Is(s, t, IdleMutex) && s.threads[t].wait == InLock(k));
    }
    forall k | 0 <= k < KMT_MAX_MUTEXES ensures Sound(r, r.mutexes[k]) { assert Sound(s, s.mutexes[k]); }
  }

  /** The running thread finishes the call it was in, or its priority or a stopped thread's changes. */
  lemma PlainEdit(s: State, t: nat, th: Thread)
    requires Core(s, true) && t < |s.threads| && th.status == s.threads[t].status && th.home == s.threads[t].home
    requires th.calls == s.threads[t].calls && th.serving == s.threads[t].serving && th.ret == s.threads[t].ret
    requires th.priority < QUEUES && th.basePriority < QUEUES
    requires th.wait == s.threads[t].wait || (t == s.current && th.wait == NoWait)
    ensures Core(Put(s, t, th), true)
  {
    var r := Put(s, t, th);
    ReadiedEdit(s, r, t);
    AsleepEdit(s, r, t);
    LockedEdit(s, r, t);
    CalledEdit(s, r, t);
    forall u: nat | u < |r.threads| ensures Settled(r, u) {
      assert Settled(s, u);
      if u != t { SettledEdit(s, r, t, u); }
    }
  }

  /** The running thread takes the oldest call of its queue. */
  lemma TakeKeeps(s: State)
    requires Core(s, true) && s.threads[s.current].calls != []
    ensures Core(Take(s).s, true)
  {
    var c, r := s.current, Take(s).s;
    ReadiedEdit(s, r, c);
    AsleepEdit(s, r, c);
    LockedEdit(s, r, c);
    CalledTake(s, r, c);
    forall u: nat | u < |r.threads| ensures Settled(r, u) {
      assert Settled(s, u);
      if u != c { SettledEdit(s, r, c, u); }
    }
  }

  lemma CalledTake(s: State, r: State, c: nat)
    requires Called(s) && Edited(s, r, c) && s.threads[c].calls != []
    requires r.threads[c].calls == s.threads[c].calls[1..]
    requires r.threads[c].serving == s.threads[c].serving + multiset{s.threads[c].calls[0].caller}
    requires !Is(s, c, IdleCaller) && !Is(r, c, IdleCaller)
    ensures Called(r)
  {
    forall t, d: nat | 0 <= t < |r.threads|
      ensures From(r.threads[t].calls, d) + r.threads[t].serving[d] == One(Is(r, d, IdleCaller) && r.threads[d].wait == InCall(t))
    {
      assert From(s.threads[t].calls, d) + s.threads[t].serving[d] == One(Is(s, d, IdleCaller) && s.threads[d].wait == InCall(t));
    }
    forall t | 0 <= t < |r.threads| ensures Addressed(r, t) { assert Addressed(s, t); }
  }
}
