/** Runs of the thread system: what clients may do, and what then always holds. */
module ThreadRuns {
  import opened Bits
  import opened Options
  import opened SleepHeap
  import Timer
  import opened Threads
  import opened ThreadInv
  import opened ThreadSteps

  datatype Op =
    | DoSleep | DoSleepUntil(time: nat, ns: nat) | DoKill | DoTick(now: nat) | DoResume
    | DoWakeup(t: nat) | DoOverride(t: nat, priority: nat)
    | DoCreateThread(priority: nat, nameFits: bool, fault: Option<int>) | DoSpawnIdle(fault: Option<int>)
    | DoCreateMutex | DoLock(m: nat) | DoUnlock(m: nat) | DoFreeMutex(m: nat)
    | DoCall(callee: nat, command: nat, buffers: nat, ok: bool) | DoListen
    | DoReturn(rpc: Rpc, descOk: bool, buffersOk: bool, code: int)

  /** The mutex an operation names; the code indexes its pool unchecked. */
  predicate InPool(op: Op) {
    match op
    case DoLock(m) => m < KMT_MAX_MUTEXES
    case DoUnlock(m) => m < KMT_MAX_MUTEXES
    case DoFreeMutex(m) => m < KMT_MAX_MUTEXES
    case _ => true
  }

  function Step(s: State, op: Op): Res
    requires Shape(s) && InPool(op)
  {
    match op
    case DoSleep => Sleep(s)
    case DoSleepUntil(time, ns) => SleepUntil(s, time, ns)
    case DoKill => Kill(s)
    case DoTick(now) => Tick(s, now)
    case DoResume => Resume(s)
    case DoWakeup(t) => WakeupThread(s, t)
    case DoOverride(t, p) => OverridePriority(s, t, p)
    case DoCreateThread(p, nameFits, fault) => CreateThread(s, p, nameFits, fault)
    case DoSpawnIdle(fault) => SpawnIdle(s, fault)
    case DoCreateMutex => CreateMutex(s)
    case DoLock(m) => LockMutex(s, m)
    case DoUnlock(m) => UnlockMutex(s, m)
    case DoFreeMutex(m) => FreeMutex(s, m)
    case DoCall(callee, command, buffers, ok) => RpcCall(s, callee, command, buffers, ok)
    case DoListen => RpcListen(s)
    case DoReturn(rpc, descOk, buffersOk, code) => RpcReturn(s, rpc, descOk, buffersOk, code)
  }

  /** The idle thread exists and is not the one running: the current thread may block. */
  predicate CanBlock(s: State) {
    s.idle.Some? && s.current != s.idle.value
  }

  /** A thread that is blocked for an event of its own, not merely asleep with kmt_sleep. */
  predicate Blocked(s: State, t: nat) {
    t < |s.threads| && s.threads[t].status in {IdleSleep, IdleMutex, IdleCallee, IdleCaller}
  }

  /**
   What clients owe. A suspended call is finished before its thread does anything else; the idle
   thread never blocks, nor anyone before there is one; blocked threads are not woken from outside;
   a received call is returned once, by its receiver; nobody calls a terminated thread that has no
   call queued; priorities stay below 31; the idle thread can be created.
   */
  predicate Allowed(s: State, op: Op)
    requires s.current < |s.threads| && |s.mutexes| == KMT_MAX_MUTEXES
  {
    && InPool(op)
    && (op.DoResume? <==> s.threads[s.current].wait != NoWait)
    && match op
       case DoSleep => CanBlock(s)
       case DoSleepUntil(time, ns) => ns < time * Timer.NS_PER_MS ==> CanBlock(s)
       case DoKill => CanBlock(s)
       case DoTick(_) => s.idle.Some?
       case DoResume => true
       case DoWakeup(t) => !Blocked(s, t)
       case DoOverride(_, p) => p < QUEUES
       case DoCreateThread(_, _, _) => true
       case DoSpawnIdle(fault) => s.idle.None? ==> fault.None? && |s.threads| < MAX_KERNEL_THREADS
       case DoCreateMutex => true
       case DoLock(m) => Contended(s, m) ==> CanBlock(s)
       case DoUnlock(_) => true
       case DoFreeMutex(_) => true
       case DoCall(callee, _, _, ok) => callee < |s.threads| && ok ==> CanBlock(s) && !CallsTheDead(s, callee)
       case DoListen => s.threads[s.current].calls == [] ==> CanBlock(s)
       case DoReturn(rpc, _, _, _) => rpc.callee == s.current ==> rpc.caller in s.threads[s.current].serving
  }

  /** Another thread owns the mutex. */
  predicate Contended(s: State, m: nat)
    requires m < |s.mutexes|
  {
    s.mutexes[m].used && s.mutexes[m].owner.Some? && s.mutexes[m].owner.value != s.current
  }

  predicate CallsTheDead(s: State, callee: nat)
    requires callee < |s.threads|
  {
    s.threads[callee].status == Terminated && s.threads[callee].calls == []
  }

  /** Nothing that Inv says of the idle thread has changed. */
  lemma Blocks(s: State, s2: State)
    requires IdleRuns(s) && Core(s2, false) && s.idle.Some? && s2.idle == s.idle && s.idle.value < |s2.threads|
    requires s2.threads[s.idle.value].status in {Ready, Running} && s2.threads[s.idle.value].wait == NoWait
    ensures Dispatch(s2).Some? && Inv(Dispatch(s2).value)
  {
    Switch(s2);
  }

  // ---------- the sleep heap never overflows ----------

  lemma {:induction false} Distinct(q: seq<nat>, n: nat)
    requires forall i | 0 <= i < |q| :: q[i] < n
    requires forall i, j | 0 <= i < j < |q| :: q[i] != q[j]
    ensures |q| <= n
    decreases n
  {
    assert |q| > 0 ==> q[0] < n;
    if n > 0 {
      if n - 1 in q {
        var k :| 0 <= k < |q| && q[k] == n - 1;
        Distinct(q[..k] + q[k + 1..], n - 1);
      } else {
        Distinct(q, n - 1);
      }
    }
  }

  lemma RequestsDistinct(s: State, i: nat, j: nat)
    requires Asleep(s) && i < j < |s.sleepers|
    ensures s.sleepers[i].thread != s.sleepers[j].thread
  {
    var x, y, h := s.sleepers[i], s.sleepers[j], s.sleepers;
    assert x == Request(x.thread, x.time) && y == Request(y.thread, y.time);
    assert multiset(h)[x] > 0 && multiset(h)[y] > 0;
    assert h == h[..j] + h[j..];
    assert multiset(h[..j])[x] > 0 && multiset(h[j..])[y] > 0;
  }

  /** A thread sleeps at most once and the running one does not. */
  lemma SleepersFit(s: State)
    requires Core(s, true)
    ensures |s.sleepers| < |s.threads|
  {
    var q := seq(|s.sleepers| + 1, i requires 0 <= i <= |s.sleepers| => if i == 0 then s.current else s.sleepers[i - 1].thread);
    forall i, j | 0 <= i < j < |q| ensures q[i] != q[j] {
      if i > 0 {
        RequestsDistinct(s, i - 1, j - 1);
      } else {
        var x := s.sleepers[j - 1];
        assert x == Request(x.thread, x.time) && multiset(s.sleepers)[x] > 0;
      }
    }
    forall i | 0 <= i < |q| ensures q[i] < |s.threads| { assert i > 0 ==> s.sleepers[i - 1] in s.sleepers; }
    Distinct(q, |s.threads|);
  }

  // ---------- one step ----------

  lemma SleepSafe(s: State)
    requires Inv(s) && CanBlock(s)
    ensures Sleep(s).reply == Switched && Inv(Sleep(s).s)
  {
    YieldKeeps(s, s.threads[s.current].priority);
    Blocks(s, Retire(s, Idle));
  }

  lemma SleepUntilSafe(s: State, time: nat, ns: nat)
    requires Inv(s) && (ns < time * Timer.NS_PER_MS ==> CanBlock(s))
    ensures SleepUntil(s, time, ns).reply == (if ns >= time * Timer.NS_PER_MS then Ret(ESUCCESS) else Switched)
    ensures Inv(SleepUntil(s, time, ns).s)
  {
    SleepersFit(s);
    if ns < time * Timer.NS_PER_MS {
      RetireSleep(s, time);
      Blocks(s, Retire(AddSleeper(s, time), IdleSleep));
    }
  }

  lemma KillSafe(s: State)
    requires Inv(s) && CanBlock(s) && s.threads[s.current].wait == NoWait
    ensures Kill(s).reply == Switched && Inv(Kill(s).s)
  {
    RetireTerminated(s);
    Blocks(s, WithStatus(s, s.current, Terminated));
  }

  lemma {:induction false} SleepersLeaveIdle(s: State, now: nat)
    requires Core(s, true) && IdleRuns(s) && s.idle.Some?
    ensures var r := WakeSleepers(s, now);
      r.idle == s.idle && |r.threads| == |s.threads| && r.threads[s.idle.value] == s.threads[s.idle.value] && r.current == s.current
    decreases |s.sleepers|
  {
    if |s.sleepers| > 0 && s.sleepers[0].time <= now {
      PopKeeps(s.sleepers);
      SleeperLeaves(s, true);
      WakeFirstKeeps(s, true);
      SleepersLeaveIdle(WakeFirst(s), now);
    }
  }

  lemma TickSafe(s: State, now: nat)
    requires Inv(s) && s.idle.Some?
    ensures Tick(s, now).reply == Switched && Inv(Tick(s, now).s)
  {
    var w := WakeSleepers(s, now);
    WakeSleepersKeeps(s, now, true);
    SleepersLeaveIdle(s, now);
    RetireReady(w);
    Blocks(s, Retire(w, Ready));
  }

  lemma WakeupSafe(s: State, t: nat)
    requires Inv(s) && !Blocked(s, t)
    ensures WakeupThread(s, t).reply.Ret? && Inv(WakeupThread(s, t).s)
  {
    if Is(s, t, Idle) { WakeKeeps(s, t, true); }
  }

  lemma CreateThreadSafe(s: State, priority: nat, nameFits: bool, fault: Option<int>)
    requires Inv(s)
    ensures CreateThread(s, priority, nameFits, fault).reply != Halted && Inv(CreateThread(s, priority, nameFits, fault).s)
  {
    if |s.threads| < MAX_KERNEL_THREADS && nameFits && fault.None? && priority < QUEUES {
      CreateKeeps(s, Thread(Idle, priority, priority, NoWait, [], 0, 0, multiset{}));
    }
  }

  lemma SpawnIdleSafe(s: State, fault: Option<int>)
    requires Inv(s) && s.threads[s.current].wait == NoWait
    requires s.idle.None? ==> fault.None? && |s.threads| < MAX_KERNEL_THREADS
    ensures SpawnIdle(s, fault).reply != Halted && Inv(SpawnIdle(s, fault).s)
  {
    if s.idle.None? {
      var r := CreateThread(s, 1, true, fault);
      CreateThreadSafe(s, 1, true, fault);
      var r1 := r.s.(idle := Some(r.reply.id));
      IdleNamed(r.s, r.reply.id);
      WakeKeeps(r1, r.reply.id, true);
      KillSafe(Wake(r1, r.reply.id));
    }
  }

  /** Which thread is the idle one does not matter to the places. */
  lemma IdleNamed(s: State, i: nat)
    requires Core(s, true) && i < |s.threads|
    ensures Core(s.(idle := Some(i)), true)
  {
    var r := s.(idle := Some(i));
    SameThreads(s, r);
    assert Locked(r) by { LockedEdit(s, r, 0); }
    forall t: nat | t < |r.threads| ensures Settled(r, t) { assert Settled(s, t); }
  }

  lemma CreateMutexSafe(s: State)
    requires Inv(s)
    ensures CreateMutex(s).reply != Halted && Inv(CreateMutex(s).s)
  {
    var m := if s.mutexCount < KMT_MAX_MUTEXES then s.mutexCount else FirstFree(s.mutexes, 0);
    if m < KMT_MAX_MUTEXES {
      assert Sound(s, s.mutexes[m]);
      MutexKeeps(s, m, Mutex(true, None, []), if s.mutexCount < KMT_MAX_MUTEXES then s.mutexCount + 1 else s.mutexCount);
    }
  }

  lemma LockSafe(s: State, m: nat)
    requires Inv(s) && Allowed(s, DoLock(m))
    ensures LockMutex(s, m).reply == Switched <==> Contended(s, m)
    ensures LockMutex(s, m).reply != Halted && Inv(LockMutex(s, m).s)
  {
    var x := s.mutexes[m];
    assert Sound(s, x);
    if x.used {
      if x.owner.None? {
        MutexKeeps(s, m, x.(owner := Some(s.current)), s.mutexCount);
      } else if x.owner.value != s.current {
        RetireMutex(s, m);
        Blocks(s, Retire(Enqueue(s, m), IdleMutex));
      }
    }
  }

  lemma UnlockSafe(s: State, m: nat)
    requires Inv(s) && m < KMT_MAX_MUTEXES && s.threads[s.current].wait == NoWait
    ensures UnlockMutex(s, m).reply != Halted && Inv(UnlockMutex(s, m).s)
  {
    var x := s.mutexes[m];
    assert Sound(s, x);
    if x.used && x.owner == Some(s.current) {
      if x.waiting == [] {
        MutexKeeps(s, m, x.(owner := None), s.mutexCount);
      } else {
        ReleaseKeeps(s, m);
        WakeKeeps(Release(s, m, 0), x.waiting[0], true);
      }
    }
  }

  lemma FreeMutexSafe(s: State, m: nat)
    requires Inv(s) && m < KMT_MAX_MUTEXES
    ensures FreeMutex(s, m).reply != Halted && Inv(FreeMutex(s, m).s)
  {
    var x := s.mutexes[m];
    assert Sound(s, x);
    if x.used && x.owner.None? { MutexKeeps(s, m, x.(used := false), s.mutexCount); }
  }

  /** Waking the callee before or after the caller leaves the CPU comes to the same. */
  lemma WakeCommutes(s: State, callee: nat, rpc: Rpc)
    requires Shape(s) && callee < |s.threads| && callee != s.current && s.threads[s.current].status == Running
    ensures var s1 := Queue(s, callee, rpc);
      Retire(AwaitReturn(Wake(WithStatus(s1, callee, Idle), callee), callee), IdleCaller)
      == Wake(WithStatus(Calling(s, callee, rpc), callee, Idle), callee)
  {
    var s1 := Queue(s, callee, rpc);
    var a := Retire(AwaitReturn(Wake(WithStatus(s1, callee, Idle), callee), callee), IdleCaller);
    var b := Wake(WithStatus(Calling(s, callee, rpc), callee, Idle), callee);
    assert a.threads == b.threads;
  }

  /** The callee was waiting for its first call: it is woken. */
  lemma CallWakes(s: State, callee: nat, rpc: Rpc)
    requires Inv(s) && CanBlock(s) && Is(s, callee, IdleCallee) && rpc.caller == s.current && rpc.callee == callee
    ensures var s1 := Queue(s, callee, rpc);
      var r := Schedule(AwaitReturn(Wake(WithStatus(s1, callee, Idle), callee), callee), IdleCaller);
      r.reply == Switched && Inv(r.s)
  {
    var x := Calling(s, callee, rpc);
    assert Settled(s, callee);
    RetireCaller(s, callee, rpc);
    WakeCommutes(s, callee, rpc);
    SwitchWoken(s, x, callee);
  }

  lemma SwitchWoken(s: State, x: State, callee: nat)
    requires IdleRuns(s) && CanBlock(s) && Places(x, false) && x.idle == s.idle && |x.threads| == |s.threads|
    requires x.threads[s.idle.value].status == s.threads[s.idle.value].status && x.threads[s.idle.value].wait == NoWait
    requires Is(x, callee, IdleCallee) && x.threads[callee].wait == InListen && x.threads[callee].calls != []
    requires forall u: nat | u < |x.threads| && u != callee :: Settled(x, u)
    ensures var y := Wake(WithStatus(x, callee, Idle), callee); Dispatch(y).Some? && Inv(Dispatch(y).value)
  {
    CalleeWoken(x, callee);
    Blocks(s, Wake(WithStatus(x, callee, Idle), callee));
  }

  lemma CalleeWoken(x: State, callee: nat)
    requires Places(x, false) && Is(x, callee, IdleCallee) && x.threads[callee].wait == InListen && x.threads[callee].calls != []
    requires forall u: nat | u < |x.threads| && u != callee :: Settled(x, u)
    ensures Core(Wake(WithStatus(x, callee, Idle), callee), false)
  {
    CalleeReleased(x, callee);
    WakeKeeps(WithStatus(x, callee, Idle), callee, false);
  }

  /** The callee is busy: the call waits in its queue. */
  lemma CallWaits(s: State, callee: nat, rpc: Rpc)
    requires Inv(s) && CanBlock(s) && callee < |s.threads| && !Is(s, callee, IdleCallee)
    requires rpc.caller == s.current && rpc.callee == callee
    ensures var r := Schedule(AwaitReturn(Queue(s, callee, rpc), callee), IdleCaller);
      r.reply == Switched && Inv(r.s)
  {
    RetireCaller(s, callee, rpc);
    assert Retire(AwaitReturn(Queue(s, callee, rpc), callee), IdleCaller) == Calling(s, callee, rpc);
    Blocks(s, Calling(s, callee, rpc));
  }

  lemma CallSafe(s: State, callee: nat, command: nat, buffers: nat, ok: bool)
    requires Inv(s) && (callee < |s.threads| && ok ==> CanBlock(s) && !CallsTheDead(s, callee))
    ensures RpcCall(s, callee, command, buffers, ok).reply != Halted && Inv(RpcCall(s, callee, command, buffers, ok).s)
  {
    if callee < |s.threads| && ok {
      var rpc := Rpc(s.current, callee, command, buffers);
      assert Settled(s, callee);
      if s.threads[callee].status == IdleCallee { CallWakes(s, callee, rpc); } else { CallWaits(s, callee, rpc); }
    }
  }

  lemma ListenSafe(s: State)
    requires Inv(s) && (s.threads[s.current].calls == [] ==> CanBlock(s))
    ensures RpcListen(s).reply != Halted && Inv(RpcListen(s).s)
  {
    var c := s.current;
    if s.threads[c].calls == [] {
      RetireCallee(s);
      var r := Retire(Put(s, c, s.threads[c].(wait := InListen)), IdleCallee);
      assert r == Put(s, c, s.threads[c].(wait := InListen, status := IdleCallee));
      Blocks(s, r);
    } else {
      TakeKeeps(s);
    }
  }

  lemma ReturnSafe(s: State, rpc: Rpc, descOk: bool, buffersOk: bool, code: int)
    requires Inv(s) && (rpc.callee == s.current ==> rpc.caller in s.threads[s.current].serving)
    ensures RpcReturn(s, rpc, descOk, buffersOk, code).reply != Halted && Inv(RpcReturn(s, rpc, descOk, buffersOk, code).s)
  {
    if RpcReturn(s, rpc, descOk, buffersOk, code).reply !in {Ret(EINVPTR), Ret(EOUTOFRANGE), Ret(EINVAL)} {
      RespondKeeps(s, rpc.caller, code);
      WakeKeeps(Respond(s, rpc.caller, code), rpc.caller, true);
    }
  }

  lemma OverrideSafe(s: State, t: nat, priority: nat)
    requires Inv(s) && priority < QUEUES
    ensures OverridePriority(s, t, priority).reply != Halted && Inv(OverridePriority(s, t, priority).s)
  {
    if t < |s.threads| { PlainEdit(s, t, s.threads[t].(priority := priority)); }
  }

  /** A resumed call can always be finished at once: its thread was woken for that reason. */
  lemma ResumeSafe(s: State)
    requires Inv(s)
    ensures Resume(s).reply !in {Halted, Switched} && Inv(Resume(s).s)
  {
    var th := s.threads[s.current];
    assert Settled(s, s.current);
    if th.wait == InListen { TakeKeeps(s); } else { PlainEdit(s, s.current, th.(wait := NoWait)); }
    if th.wait.InLock? { assert Sound(s, s.mutexes[th.wait.mutex]); }
  }

  /** Every allowed call keeps the invariant and reaches no panic. */
  lemma StepSafe(s: State, op: Op)
    requires Inv(s) && Allowed(s, op)
    ensures Step(s, op).reply != Halted && Inv(Step(s, op).s)
  {
    match op
    case DoSleep => SleepSafe(s);
    case DoSleepUntil(time, ns) => SleepUntilSafe(s, time, ns);
    case DoKill => KillSafe(s);
    case DoTick(now) => TickSafe(s, now);
    case DoResume => ResumeSafe(s);
    case DoWakeup(t) => WakeupSafe(s, t);
    case DoOverride(t, p) => OverrideSafe(s, t, p);
    case DoCreateThread(p, nameFits, fault) => CreateThreadSafe(s, p, nameFits, fault);
    case DoSpawnIdle(fault) => SpawnIdleSafe(s, fault);
    case DoCreateMutex => CreateMutexSafe(s);
    case DoLock(m) => LockSafe(s, m);
    case DoUnlock(m) => UnlockSafe(s, m);
    case DoFreeMutex(m) => FreeMutexSafe(s, m);
    case DoCall(callee, command, buffers, ok) => CallSafe(s, callee, command, buffers, ok);
    case DoListen => ListenSafe(s);
    case DoReturn(rpc, descOk, buffersOk, code) => ReturnSafe(s, rpc, descOk, buffersOk, code);
  }

  // ---------- runs ----------

  lemma InitQueues()
    ensures Readied(Init()) && Mapped(Init())
  {
    forall p: nat ensures !Bit(0, p) { NoBits(p); }
  }

  lemma InitElsewhere()
    ensures Asleep(Init()) && Locked(Init()) && Called(Init())
  {
    var s := Init();
    forall t: nat, st: Status ensures Is(s, t, st) ==> st == Running {}
    forall m, t: nat | 0 <= m < KMT_MAX_MUTEXES ensures Count(s.mutexes[m].waiting, t) == 0 {}
    forall t | 0 <= t < |s.threads| ensures Addressed(s, t) {}
  }

  lemma InitInv()
    ensures Inv(Init())
  {
    InitQueues();
    InitElsewhere();
  }

  /** Step i of a run. */
  ghost predicate StepAt(ops: seq<Op>, states: seq<State>, i: nat)
    requires i < |ops| < |states|
  {
    Shape(states[i]) && Allowed(states[i], ops[i]) && states[i + 1] == Step(states[i], ops[i]).s
  }

  ghost predicate RunOf(ops: seq<Op>, states: seq<State>) {
    && |states| == |ops| + 1 && states[0] == Init()
    && forall i: nat {:trigger StepAt(ops, states, i)} | i < |ops| :: StepAt(ops, states, i)
  }

  lemma StepAtSafe(ops: seq<Op>, states: seq<State>, i: nat)
    requires RunOf(ops, states) && i < |ops| && Inv(states[i])
    ensures Inv(states[i + 1])
  {
    assert StepAt(ops, states, i);
    StepSafe(states[i], ops[i]);
  }

  /** Over every run the invariant holds throughout. */
  lemma {:induction false} RunSafe(ops: seq<Op>, states: seq<State>, i: nat)
    requires RunOf(ops, states) && i <= |ops|
    ensures Inv(states[i])
  {
    if i == 0 {
      InitInv();
    } else {
      RunSafe(ops, states, i - 1);
      StepAtSafe(ops, states, i - 1);
    }
  }

  /** And no call ever panics. */
  lemma RunNeverPanics(ops: seq<Op>, states: seq<State>, i: nat)
    requires RunOf(ops, states) && i < |ops|
    ensures Shape(states[i]) && InPool(ops[i]) && Step(states[i], ops[i]).reply != Halted
  {
    RunSafe(ops, states, i);
    assert StepAt(ops, states, i);
    StepSafe(states[i], ops[i]);
  }
}
