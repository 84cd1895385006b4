/** What the invariant of the thread system gives its clients. */
module ThreadProps {
  import opened Bits
  import opened Options
  import opened SleepHeap
  import Timer
  import opened Threads
  import opened ThreadInv
  import opened ThreadSteps
  import opened ThreadRuns

  // ---------- places ----------

  /** Each thread is in exactly the place its status names, once, and nowhere else. */
  lemma OnePlace(s: State, t: nat)
    requires Inv(s) && t < |s.threads|
    ensures var th := s.threads[t];
      && (th.status == Running <==> t == s.current)
      && (forall p: nat | p < QUEUES :: Count(s.ready[p], t) == One(th.status == Ready && p == th.home))
      && (th.status == Ready ==> th.home < QUEUES)
      && (forall m: nat | m < KMT_MAX_MUTEXES :: Count(s.mutexes[m].waiting, t) == One(th.status == IdleMutex && th.wait == InLock(m)))
      && (th.status == IdleMutex ==> th.wait.InLock? && th.wait.mutex < KMT_MAX_MUTEXES)
      && (forall w: nat :: multiset(s.sleepers)[Request(t, w)] == One(th.status == IdleSleep && th.wait == InSleep(w)))
      && (th.status == IdleSleep ==> th.wait.InSleep?)
      && (th.status == IdleCallee ==> th.calls == [])
  {
    assert Settled(s, t);
    forall p: nat | p < QUEUES ensures Count(s.ready[p], t) == One(s.threads[t].status == Ready && p == s.threads[t].home) {
      assert Count(s.ready[p], t) == One(Is(s, t, Ready) && s.threads[t].home == p);
    }
    forall m: nat | m < KMT_MAX_MUTEXES
      ensures Count(s.mutexes[m].waiting, t) == One(s.threads[t].status == IdleMutex && s.threads[t].wait == InLock(m))
    {
      assert Count(s.mutexes[m].waiting, t) == One(Is(s, t, IdleMutex) && s.threads[t].wait == InLock(m));
    }
  }

  /** kmt_schedule panics exactly when no thread is ready; else the oldest of the highest queue runs. */
  lemma DispatchExact(s: State)
    requires Core(s, false)
    ensures Dispatch(s).None? <==> forall p | 0 <= p < QUEUES :: s.ready[p] == []
    ensures forall p | 0 <= p < QUEUES && s.ready[p] != [] && (forall q | p < q < QUEUES :: s.ready[q] == []) ::
      && Dispatch(s).Some? && Dispatch(s).value.current == s.ready[p][0]
      && Dispatch(s).value.ready == s.ready[p := s.ready[p][1..]]
  {
    if s.bitmap > 0 {
      HighestBit(s.bitmap);
      assert Bit(s.bitmap, BitLen(s.bitmap) - 1);
    }
    forall p | 0 <= p < QUEUES && s.ready[p] != [] ensures Dispatch(s).Some? && p <= BitLen(s.bitmap) - 1 {
      SomeBit(s.bitmap, p);
      var t := s.ready[p][0];
      CountTail(s.ready[p], t);
      assert Count(s.ready[p], t) == One(Is(s, t, Ready) && s.threads[t].home == p);
      DispatchReadied(s, t);
    }
  }

  // ---------- what a switch leaves alone ----------

  /** Mutexes, calls, answers and the calls threads are in the middle of are the same. */
  ghost predicate SameCalls(s: State, r: State) {
    && r.mutexes == s.mutexes && |r.threads| == |s.threads|
    && forall t | 0 <= t < |s.threads| :: SameThread(s.threads[t], r.threads[t])
  }

  predicate SameThread(a: Thread, b: Thread) {
    a.calls == b.calls && a.serving == b.serving && a.ret == b.ret && a.wait == b.wait
  }

  lemma ScheduleSame(s: State, st: Status)
    requires Shape(s)
    ensures SameCalls(s, Schedule(s, st).s)
  {
    var r := Retire(s, st);
    assert SameCalls(s, r);
    if Dispatch(r).Some? { DispatchSame(r); }
  }

  lemma DispatchSame(s: State)
    requires Shape(s) && Dispatch(s).Some?
    ensures SameCalls(s, Dispatch(s).value)
  {
  }

  lemma {:induction false} WakeSleepersSame(s: State, now: nat)
    requires Shape(s)
    ensures SameCalls(s, WakeSleepers(s, now)) && WakeSleepers(s, now).current == s.current
    decreases |s.sleepers|
  {
    if |s.sleepers| > 0 && s.sleepers[0].time <= now {
      PopKeeps(s.sleepers);
      WakeSleepersSame(WakeFirst(s), now);
    }
  }

  lemma TickSame(s: State, now: nat)
    requires Shape(s)
    ensures SameCalls(s, Tick(s, now).s)
  {
    WakeSleepersSame(s, now);
    ScheduleSame(WakeSleepers(s, now), Ready);
  }

  // ---------- mutexes ----------

  /** kmt_lock_mutex reports success only to the owner, at once or when its thread is resumed. */
  lemma LockMeansOwner(s: State, m: nat)
    requires Inv(s) && m < KMT_MAX_MUTEXES
    ensures LockMutex(s, m).reply == Ret(ESUCCESS) ==>
      LockMutex(s, m).s.mutexes[m].used && LockMutex(s, m).s.mutexes[m].owner == Some(s.current)
    ensures s.threads[s.current].wait == InLock(m) ==>
      Resume(s).reply == Ret(ESUCCESS) && s.mutexes[m].used && Resume(s).s.mutexes[m].owner == Some(s.current)
  {
    assert Settled(s, s.current);
    assert Sound(s, s.mutexes[m]);
  }

  /** The threads that a step makes wait for m, and those it hands m to. */
  function Joins(s: State, op: Op, m: nat): seq<nat> {
    if op == DoLock(m) && m < |s.mutexes| && Contended(s, m) then [s.current] else []
  }

  function Grants(s: State, op: Op, m: nat, r: State): seq<nat> {
    if op == DoUnlock(m) && m < |s.mutexes| && m < |r.mutexes| && s.mutexes[m].owner == Some(s.current) && r.mutexes[m].owner.Some?
    then [r.mutexes[m].owner.value] else []
  }

  /** What a step does to the mutexes. */
  function MutexesAfter(s: State, op: Op): seq<Mutex>
    requires Inv(s) && InPool(op)
  {
    match op
    case DoLock(m) =>
      var x := s.mutexes[m];
      if !x.used || x.owner == Some(s.current) then s.mutexes
      else if x.owner == None then s.mutexes[m := x.(owner := Some(s.current))]
      else s.mutexes[m := x.(waiting := x.waiting + [s.current])]
    case DoUnlock(m) =>
      var x := s.mutexes[m];
      if !x.used || x.owner != Some(s.current) then s.mutexes
      else if x.waiting == [] then s.mutexes[m := x.(owner := None)]
      else s.mutexes[m := x.(owner := Some(x.waiting[0]), waiting := x.waiting[1..])]
    case DoFreeMutex(m) =>
      var x := s.mutexes[m];
      if x.used && x.owner == None then s.mutexes[m := x.(used := false)] else s.mutexes
    case DoCreateMutex =>
      var m := if s.mutexCount < KMT_MAX_MUTEXES then s.mutexCount else FirstFree(s.mutexes, 0);
      if m == KMT_MAX_MUTEXES then s.mutexes else s.mutexes[m := s.mutexes[m].(used := true)]
    case _ => s.mutexes
  }

  lemma LockStep(s: State, m: nat)
    requires Inv(s) && m < KMT_MAX_MUTEXES
    ensures LockMutex(s, m).s.mutexes == MutexesAfter(s, DoLock(m))
  {
    assert Sound(s, s.mutexes[m]);
    ScheduleSame(Enqueue(s, m), IdleMutex);
  }

  lemma StepMutexes(s: State, op: Op)
    requires Inv(s) && Allowed(s, op)
    ensures Step(s, op).s.mutexes == MutexesAfter(s, op)
  {
    match op
    case DoLock(m) => LockStep(s, m);
    case DoUnlock(m) => UnlockStep(s, m);
    case DoFreeMutex(m) =>
    case DoCreateMutex => CreateStep(s);
    case _ => StepKeepsMutexes(s, op);
  }

  /** Only the mutex calls change mutexes. */
  lemma StepKeepsMutexes(s: State, op: Op)
    requires Inv(s) && Allowed(s, op) && !op.DoLock? && !op.DoUnlock? && !op.DoFreeMutex? && !op.DoCreateMutex?
    ensures Step(s, op).s.mutexes == s.mutexes
  {
    if op.DoTick? || op.DoSleep? || op.DoSleepUntil? || op.DoKill? || op.DoSpawnIdle? {
      SwitchKeepsMutexes(s, op);
    } else if op.DoCall? {
      CallIssued(s, op.callee, op.command, op.buffers, op.ok);
      CallReplies(s, op.callee, op.command, op.buffers, op.ok);
    } else {
      PlainKeepsMutexes(s, op);
    }
  }

  lemma SwitchKeepsMutexes(s: State, op: Op)
    requires Inv(s) && Allowed(s, op) && (op.DoTick? || op.DoSleep? || op.DoSleepUntil? || op.DoKill? || op.DoSpawnIdle?)
    ensures Step(s, op).s.mutexes == s.mutexes
  {
    match op
    case DoTick(now) => TickSame(s, now);
    case DoSpawnIdle(fault) => SpawnMutexes(s, fault);
    case _ => YieldMutexes(s, op);
  }

  lemma YieldMutexes(s: State, op: Op)
    requires Inv(s) && Allowed(s, op) && (op.DoSleep? || op.DoSleepUntil? || op.DoKill?)
    ensures Step(s, op).s.mutexes == s.mutexes
  {
    match op
    case DoSleep => ScheduleSame(s, Idle);
    case DoSleepUntil(time, ns) => SleepMutexes(s, time, ns);
    case DoKill => ScheduleSame(WithStatus(s, s.current, Terminated), Terminated);
  }

  lemma SleepMutexes(s: State, time: nat, ns: nat)
    requires Shape(s)
    ensures SleepUntil(s, time, ns).s.mutexes == s.mutexes
  {
    ScheduleSame(AddSleeper(s, time), IdleSleep);
  }

  lemma PlainKeepsMutexes(s: State, op: Op)
    requires Inv(s) && Allowed(s, op)
    requires op.DoResume? || op.DoWakeup? || op.DoOverride? || op.DoCreateThread? || op.DoListen? || op.DoReturn?
    ensures Step(s, op).s.mutexes == s.mutexes
  {
    if op.DoResume? { ResumeReplies(s); }
    if op.DoListen? { ScheduleSame(Put(s, s.current, s.threads[s.current].(wait := InListen)), IdleCallee); }
  }

  lemma SpawnMutexes(s: State, fault: Option<int>)
    requires Shape(s)
    ensures SpawnIdle(s, fault).s.mutexes == s.mutexes
  {
    var r := CreateThread(s, 1, true, fault);
    if s.idle.None? && r.reply.Id? {
      var w := Wake(r.s.(idle := Some(r.reply.id)), r.reply.id);
      ScheduleSame(WithStatus(w, w.current, Terminated), Terminated);
    }
  }

  /** An owner stays until it unlocks; then the first waiter, if any, is next. */
  lemma MutexStep(s: State, op: Op, r: State, m: nat)
    requires Inv(s) && InPool(op) && m < KMT_MAX_MUTEXES && r.mutexes == MutexesAfter(s, op)
    requires op.DoUnlock? && s.mutexes[m].waiting != [] ==> s.mutexes[m].waiting[0] != s.current
    ensures |r.mutexes| == KMT_MAX_MUTEXES
    ensures var x, y := s.mutexes[m], r.mutexes[m];
      && x.waiting + Joins(s, op, m) == Grants(s, op, m, r) + y.waiting
      && (x.owner.Some? ==> (y.owner != x.owner <==> op == DoUnlock(m) && x.owner == Some(s.current)))
      && (x.owner.Some? && y.owner != x.owner ==> y.owner == if x.waiting == [] then None else Some(x.waiting[0]))
  {
    var x, y := s.mutexes[m], r.mutexes[m];
    assert Sound(s, x);
    assert x.waiting != [] ==> x.waiting == [x.waiting[0]] + x.waiting[1..];
    match op
    case DoCreateMutex => CreateStep(s);
    case _ =>
  }

  lemma UnlockStep(s: State, m: nat)
    requires Inv(s) && m < KMT_MAX_MUTEXES && s.threads[s.current].wait == NoWait
    ensures UnlockMutex(s, m).s.mutexes == if s.mutexes[m].used && s.mutexes[m].owner == Some(s.current) then
        var x := s.mutexes[m];
        s.mutexes[m := if x.waiting == [] then x.(owner := None) else x.(owner := Some(x.waiting[0]), waiting := x.waiting[1..])]
      else s.mutexes
    ensures s.mutexes[m].waiting != [] ==> s.mutexes[m].waiting[0] != s.current
  {
    if s.mutexes[m].waiting != [] { FirstWaiter(s, m); }
  }

  lemma CreateStep(s: State)
    requires Inv(s)
    ensures CreateMutex(s).s.mutexes == MutexesAfter(s, DoCreateMutex)
  {
    var m := if s.mutexCount < KMT_MAX_MUTEXES then s.mutexCount else FirstFree(s.mutexes, 0);
    if m < KMT_MAX_MUTEXES { assert Sound(s, s.mutexes[m]); }
  }

  // ---------- remote procedure calls ----------

  /** A call by c leaves mutexes alone, and threads but for the callee's queue and the caller's wait. */
  ghost predicate Issued(s: State, r: State, c: nat, callee: nat, rpc: Rpc) {
    && r.mutexes == s.mutexes && |r.threads| == |s.threads|
    && forall t | 0 <= t < |s.threads| :: IssuedAt(s.threads[t], r.threads[t], t == c, t == callee, rpc)
  }

  predicate IssuedAt(a: Thread, b: Thread, caller: bool, callee: bool, rpc: Rpc) {
    && b.calls == a.calls + (if callee then [rpc] else []) && b.serving == a.serving
    && (!caller ==> b.ret == a.ret && b.wait == a.wait)
    && (caller ==> b.ret == EPENDING && b.wait == InCall(rpc.callee))
  }

  lemma CallIssued(s: State, callee: nat, command: nat, buffers: nat, ok: bool)
    requires Shape(s)
    ensures var r := RpcCall(s, callee, command, buffers, ok);
      && (r.reply.Ret? ==> r.s == s)
      && (r.reply == Switched ==> callee < |s.threads| && Issued(s, r.s, s.current, callee, Rpc(s.current, callee, command, buffers)))
  {
    if callee < |s.threads| && ok {
      var rpc := Rpc(s.current, callee, command, buffers);
      var s1 := Queue(s, callee, rpc);
      IssuedBy(s, AwaitReturn(s1, callee), callee, rpc);
      IssuedBy(s, AwaitReturn(Wake(WithStatus(s1, callee, Idle), callee), callee), callee, rpc);
    }
  }

  lemma IssuedBy(s: State, a: State, callee: nat, rpc: Rpc)
    requires Shape(a) && Issued(s, a, s.current, callee, rpc)
    ensures Issued(s, Schedule(a, IdleCaller).s, s.current, callee, rpc)
  {
    ScheduleSame(a, IdleCaller);
    SameAfter(s, a, Schedule(a, IdleCaller).s, callee, rpc);
  }

  lemma SameAfter(s: State, a: State, r: State, callee: nat, rpc: Rpc)
    requires Issued(s, a, s.current, callee, rpc) && SameCalls(a, r)
    ensures Issued(s, r, s.current, callee, rpc)
  {
    forall t | 0 <= t < |s.threads| ensures IssuedAt(s.threads[t], r.threads[t], t == s.current, t == callee, rpc) {
      assert SameThread(a.threads[t], r.threads[t]);
      assert IssuedAt(s.threads[t], a.threads[t], t == s.current, t == callee, rpc);
    }
  }

  /** The calls a step puts in the queue of t, and those t takes out. */
  function Made(s: State, op: Op, t: nat): seq<Rpc> {
    if op.DoCall? && op.callee == t && t < |s.threads| && op.ok then [Rpc(s.current, t, op.command, op.buffers)] else []
  }

  function TakenBy(s: State, op: Op, t: nat): seq<Rpc> {
    if t == s.current && t < |s.threads| && s.threads[t].calls != [] && (op.DoListen? || (op.DoResume? && s.threads[t].wait == InListen))
    then [s.threads[t].calls[0]] else []
  }

  /** The answer a step leaves with t. */
  function RetAfter(s: State, op: Op, reply: Reply, t: nat): int
    requires t < |s.threads|
  {
    if op.DoReturn? && reply == Ret(ESUCCESS) && op.rpc.caller == t then op.code
    else if Made(s, op, if op.DoCall? then op.callee else 0) != [] && t == s.current then EPENDING
    else s.threads[t].ret
  }

  /**
   What a step does to the calls, the answer and the wait of thread t: calls come in at the end of
   its queue and are taken from the front, as the reply says; a resumed caller gets its answer.
   */
  ghost predicate Told(s: State, op: Op, r: Res, t: nat)
    requires s.current < |s.threads| && t < |s.threads|
  {
    && |r.s.threads| >= |s.threads| && (!op.DoCreateThread? && !op.DoSpawnIdle? ==> |r.s.threads| == |s.threads|)
    && s.threads[t].calls + Made(s, op, t) == TakenBy(s, op, t) + r.s.threads[t].calls
    && r.s.threads[t].ret == RetAfter(s, op, r.reply, t)
    && (t != s.current ==> r.s.threads[t].wait == s.threads[t].wait)
    && (t == s.current ==> TakenBy(s, op, t) == if r.reply.Taken? then [r.reply.rpc] else [])
    && (t == s.current && s.threads[t].wait.InCall? ==> r.reply == Answer(s.threads[t].ret))
  }

  lemma HeadTail(q: seq<Rpc>)
    ensures q != [] ==> q == [q[0]] + q[1..]
  {
  }

  /** A step that is no part of a call and leaves the thread's queue and answer alone. */
  lemma ToldQuiet(s: State, op: Op, r: Res, t: nat)
    requires s.current < |s.threads| && t < |s.threads| && s.threads[s.current].wait == NoWait
    requires !op.DoCall? && !op.DoReturn? && !op.DoResume? && (op.DoListen? ==> s.threads[s.current].calls == []) && !r.reply.Taken?
    requires |r.s.threads| >= |s.threads| && (!op.DoCreateThread? && !op.DoSpawnIdle? ==> |r.s.threads| == |s.threads|)
    requires r.s.threads[t].calls == s.threads[t].calls && r.s.threads[t].ret == s.threads[t].ret
    requires t != s.current ==> r.s.threads[t].wait == s.threads[t].wait
    ensures Told(s, op, r, t)
  {
  }

  /** A step that blocks in kmt_schedule, having changed at most the current thread's wait. */
  lemma ToldSwitch(s: State, op: Op, s1: State, st: Status, t: nat)
    requires Shape(s) && Shape(s1) && t < |s.threads| == |s1.threads| && s.threads[s.current].wait == NoWait
    requires !op.DoCall? && !op.DoReturn? && !op.DoResume? && (op.DoListen? ==> s.threads[s.current].calls == [])
    requires s1.threads[t].calls == s.threads[t].calls && s1.threads[t].ret == s.threads[t].ret
    requires t != s.current ==> s1.threads[t].wait == s.threads[t].wait
    ensures Told(s, op, Schedule(s1, st), t)
  {
    ScheduleSame(s1, st);
    assert SameThread(s1.threads[t], Schedule(s1, st).s.threads[t]);
    ToldQuiet(s, op, Schedule(s1, st), t);
  }

  /** Steps that block without a call, or end the thread. */
  lemma ToldBlock(s: State, op: Op, t: nat)
    requires Inv(s) && Allowed(s, op) && t < |s.threads|
    requires op.DoTick? || op.DoSleep? || op.DoSleepUntil? || op.DoKill? || op.DoLock? || op.DoSpawnIdle?
    ensures Told(s, op, Step(s, op), t)
  {
    match op
    case DoTick(now) =>
      WakeSleepersSame(s, now);
      assert SameThread(s.threads[t], WakeSleepers(s, now).threads[t]);
      ToldSwitch(s, op, WakeSleepers(s, now), Ready, t);
    case DoSleep => ToldSwitch(s, op, s, Idle, t);
    case DoSleepUntil(time, ns) => ToldSleepUntil(s, time, ns, t);
    case DoKill => ToldSwitch(s, op, WithStatus(s, s.current, Terminated), Terminated, t);
    case DoLock(m) => ToldLock(s, m, t);
    case DoSpawnIdle(fault) => ToldSpawn(s, fault, t);
  }

  lemma ToldSleepUntil(s: State, time: nat, ns: nat, t: nat)
    requires Inv(s) && Allowed(s, DoSleepUntil(time, ns)) && t < |s.threads|
    ensures Told(s, DoSleepUntil(time, ns), SleepUntil(s, time, ns), t)
  {
    SleepersFit(s);
    if ns < time * Timer.NS_PER_MS {
      ToldSwitch(s, DoSleepUntil(time, ns), AddSleeper(s, time), IdleSleep, t);
    } else {
      ToldQuiet(s, DoSleepUntil(time, ns), Res(s, Ret(ESUCCESS)), t);
    }
  }

  lemma ToldLock(s: State, m: nat, t: nat)
    requires Inv(s) && Allowed(s, DoLock(m)) && t < |s.threads|
    ensures Told(s, DoLock(m), LockMutex(s, m), t)
  {
    if Contended(s, m) {
      ToldSwitch(s, DoLock(m), Enqueue(s, m), IdleMutex, t);
    } else {
      ToldQuiet(s, DoLock(m), LockMutex(s, m), t);
    }
  }

  lemma ToldSpawn(s: State, fault: Option<int>, t: nat)
    requires Inv(s) && Allowed(s, DoSpawnIdle(fault)) && t < |s.threads|
    ensures Told(s, DoSpawnIdle(fault), SpawnIdle(s, fault), t)
  {
    if s.idle.None? {
      var r := CreateThread(s, 1, true, fault);
      var w := Wake(r.s.(idle := Some(r.reply.id)), r.reply.id);
      var k := WithStatus(w, w.current, Terminated);
      ScheduleSame(k, Terminated);
      assert SameThread(k.threads[t], Schedule(k, Terminated).s.threads[t]);
    }
    ToldQuiet(s, DoSpawnIdle(fault), SpawnIdle(s, fault), t);
  }

  lemma ToldPlain(s: State, op: Op, t: nat)
    requires Inv(s) && Allowed(s, op) && t < |s.threads|
    requires op.DoWakeup? || op.DoOverride? || op.DoCreateThread? || op.DoCreateMutex? || op.DoUnlock? || op.DoFreeMutex?
    ensures Told(s, op, Step(s, op), t)
  {
    PlainStep(s, op, t);
    ToldQuiet(s, op, Step(s, op), t);
  }

  lemma PlainStep(s: State, op: Op, t: nat)
    requires Shape(s) && InPool(op) && t < |s.threads|
    requires op.DoWakeup? || op.DoOverride? || op.DoCreateThread? || op.DoCreateMutex? || op.DoUnlock? || op.DoFreeMutex?
    ensures var r := Step(s, op);
      && !r.reply.Taken? && |r.s.threads| >= |s.threads| && (!op.DoCreateThread? ==> |r.s.threads| == |s.threads|)
      && SameThread(s.threads[t], r.s.threads[t])
  {
  }

  lemma CallReplies(s: State, callee: nat, command: nat, buffers: nat, ok: bool)
    requires Inv(s) && Allowed(s, DoCall(callee, command, buffers, ok))
    ensures callee < |s.threads| && ok ==> RpcCall(s, callee, command, buffers, ok).reply == Switched
  {
    CallSafe(s, callee, command, buffers, ok);
  }

  lemma ToldCall(s: State, callee: nat, command: nat, buffers: nat, ok: bool, t: nat)
    requires Inv(s) && Allowed(s, DoCall(callee, command, buffers, ok)) && t < |s.threads|
    ensures Told(s, DoCall(callee, command, buffers, ok), RpcCall(s, callee, command, buffers, ok), t)
  {
    var op, r := DoCall(callee, command, buffers, ok), RpcCall(s, callee, command, buffers, ok);
    CallIssued(s, callee, command, buffers, ok);
    CallReplies(s, callee, command, buffers, ok);
    if callee < |s.threads| && ok {
      var rpc := Rpc(s.current, callee, command, buffers);
      assert IssuedAt(s.threads[t], r.s.threads[t], t == s.current, t == callee, rpc);
      ToldIssued(s, op, r, t, rpc);
    }
  }

  lemma ToldIssued(s: State, op: Op, r: Res, t: nat, rpc: Rpc)
    requires s.current < |s.threads| && t < |s.threads| == |r.s.threads| && s.threads[s.current].wait == NoWait && !r.reply.Taken?
    requires op == DoCall(rpc.callee, rpc.command, rpc.buffers, true) && rpc.callee < |s.threads| && rpc.caller == s.current
    requires IssuedAt(s.threads[t], r.s.threads[t], t == s.current, t == rpc.callee, rpc)
    ensures Told(s, op, r, t)
  {
  }

  lemma ToldListen(s: State, t: nat)
    requires Inv(s) && Allowed(s, DoListen) && t < |s.threads|
    ensures Told(s, DoListen, RpcListen(s), t)
  {
    if s.threads[s.current].calls == [] {
      ToldSwitch(s, DoListen, Put(s, s.current, s.threads[s.current].(wait := InListen)), IdleCallee, t);
    } else {
      ToldTaking(s, DoListen, t);
    }
  }

  /** The current thread takes a call, at once or when it is resumed. */
  lemma ToldTaking(s: State, op: Op, t: nat)
    requires Shape(s) && t < |s.threads| && s.threads[s.current].calls != [] && !s.threads[s.current].wait.InCall?
    requires op == DoListen || (op == DoResume && s.threads[s.current].wait == InListen)
    ensures Told(s, op, Take(s), t)
  {
    HeadTail(s.threads[t].calls);
  }

  lemma ToldResume(s: State, t: nat)
    requires Inv(s) && Allowed(s, DoResume) && t < |s.threads|
    ensures Told(s, DoResume, Resume(s), t)
  {
    assert Settled(s, s.current);
    if s.threads[s.current].wait == InListen {
      ToldTaking(s, DoResume, t);
    } else {
      ResumeReplies(s);
    }
  }

  lemma ResumeReplies(s: State)
    requires Inv(s)
    ensures Resume(s).reply != Halted && Resume(s).reply != Switched
  {
    ResumeSafe(s);
  }

  /** A caller in service waits for its callee. */
  lemma InService(s: State, caller: nat)
    requires Core(s, true) && caller in s.threads[s.current].serving
    ensures Is(s, caller, IdleCaller) && s.threads[caller].wait == InCall(s.current) && s.threads[caller].ret == EPENDING
  {
    var c := s.current;
    assert From(s.threads[c].calls, caller) + s.threads[c].serving[caller] == One(Is(s, caller, IdleCaller) && s.threads[caller].wait == InCall(c));
    assert Settled(s, caller);
  }

  lemma ToldReturn(s: State, rpc: Rpc, descOk: bool, buffersOk: bool, code: int, t: nat)
    requires Inv(s) && Allowed(s, DoReturn(rpc, descOk, buffersOk, code)) && t < |s.threads|
    ensures Told(s, DoReturn(rpc, descOk, buffersOk, code), RpcReturn(s, rpc, descOk, buffersOk, code), t)
  {
    ReturnReplies(s, rpc, descOk, buffersOk, code);
  }

  lemma ReturnReplies(s: State, rpc: Rpc, descOk: bool, buffersOk: bool, code: int)
    requires Inv(s) && Allowed(s, DoReturn(rpc, descOk, buffersOk, code))
    ensures RpcReturn(s, rpc, descOk, buffersOk, code).reply.Ret?
    ensures rpc.caller != s.current || RpcReturn(s, rpc, descOk, buffersOk, code).s == s
  {
    if rpc.callee == s.current { InService(s, rpc.caller); }
  }

  lemma ToldStep(s: State, op: Op, t: nat)
    requires Inv(s) && Allowed(s, op) && t < |s.threads|
    ensures Told(s, op, Step(s, op), t)
  {
    match op
    case DoListen => ToldListen(s, t);
    case DoReturn(rpc, descOk, buffersOk, code) => ToldReturn(s, rpc, descOk, buffersOk, code, t);
    case DoResume => ToldResume(s, t);
    case DoCall(callee, command, buffers, ok) => ToldCall(s, callee, command, buffers, ok, t);
    case DoTick(_) => ToldBlock(s, op, t);
    case DoSpawnIdle(_) => ToldBlock(s, op, t);
    case DoSleep => ToldBlock(s, op, t);
    case DoSleepUntil(_, _) => ToldBlock(s, op, t);
    case DoKill => ToldBlock(s, op, t);
    case DoLock(_) => ToldBlock(s, op, t);
    case _ => ToldPlain(s, op, t);
  }
}
