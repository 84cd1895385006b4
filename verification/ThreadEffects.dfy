/**
 What every call does to the threads, queues and answers, said of each thread and each queue in terms of
 the state before the call, without the functions of the calls.
 */
module ThreadEffects {
  import opened Bits
  import opened Options
  import opened SleepHeap
  import opened Threads
  import opened ThreadInv
  import opened ThreadSteps
  import opened ThreadRuns
  import opened ThreadProps
  import opened ThreadLaws
  import Timer

  // ---------- one thread ----------

  /** Thread t is made ready by the call. */
  predicate Woken(s: State, op: Op, t: nat)
    requires s.current < |s.threads| && t < |s.threads|
  {
    match op
    case DoTick(now) => s.threads[t].status == IdleSleep && s.threads[t].wait.InSleep? && s.threads[t].wait.time <= now
    case DoWakeup(u) => t == u && s.threads[t].status == Idle
    case DoUnlock(m) =>
      m < |s.mutexes| && s.mutexes[m].owner == Some(s.current) && s.mutexes[m].waiting != [] && t == s.mutexes[m].waiting[0]
    case DoCall(callee, _, _, ok) => t == callee && ok && s.threads[t].status == IdleCallee
    case DoReturn(rpc, descOk, buffersOk, code) => t == rpc.caller && rpc.callee == s.current && descOk && buffersOk && code != EPENDING
    case _ => false
  }

  /** The status a call that switches leaves its thread with. */
  function GivenUp(op: Op): Status {
    match op
    case DoTick(_) => Ready
    case DoSleep => Idle
    case DoSleepUntil(_, _) => IdleSleep
    case DoKill => Terminated
    case DoSpawnIdle(_) => Terminated
    case DoLock(_) => IdleMutex
    case DoCall(_, _, _, _) => IdleCaller
    case DoListen => IdleCallee
    case _ => Running
  }

  /** What a call that switches leaves its thread waiting for. */
  function WaitsFor(op: Op, before: Wait): Wait {
    match op
    case DoSleepUntil(time, _) => InSleep(time)
    case DoLock(m) => InLock(m)
    case DoCall(callee, _, _, _) => InCall(callee)
    case DoListen => InListen
    case _ => before
  }

  /** Who becomes ready with the call: the woken threads, and the one a tick takes the CPU from. */
  predicate Queues(s: State, op: Op, t: nat)
    requires s.current < |s.threads| && t < |s.threads|
  {
    Woken(s, op, t) || (op.DoTick? && t == s.current)
  }

  /** kmt_schedule, for one thread. */
  function Scheduled(th: Thread, current: bool, st: Status, next: bool): Thread {
    var off :=
      if !current || th.status == Terminated then th
      else if st == Ready then th.(status := Ready, priority := th.basePriority, home := th.basePriority)
      else th.(status := st);
    if next then off.(status := Running) else off
  }

  lemma ScheduleThread(a: State, st: Status, t: nat)
    requires Shape(a) && t < |a.threads| && Schedule(a, st).reply == Switched
    ensures var r := Schedule(a, st).s;
      t < |r.threads| && r.threads[t] == Scheduled(a.threads[t], t == a.current, st, t == r.current)
  {
  }

  /** Thread t as the call leaves it before it asks the scheduler. */
  predicate Asked(s: State, op: Op, a: State, t: nat)
    requires s.current < |s.threads| && t < |s.threads|
  {
    && t < |a.threads| && a.current == s.current
    && var th, th' := s.threads[t], a.threads[t];
       && th'.basePriority == th.basePriority && th'.priority == th.priority
       && th'.status == (if t == s.current && GivenUp(op) == Terminated then Terminated else if Woken(s, op, t) then Ready else th.status)
       && th'.wait == (if t == s.current then WaitsFor(op, th.wait) else th.wait)
       && th'.home == if Woken(s, op, t) then th.priority else th.home
  }

  lemma AskingThread(s: State, op: Op, t: nat)
    requires Shape(s) && InPool(op) && t < |s.threads| && (op.DoSleep? || op.DoSleepUntil? || op.DoKill? || op.DoLock? || op.DoListen?)
    ensures Asked(s, op, Asking(s, op).0, t)
  {
  }

  lemma CallingThread(s: State, op: Op, t: nat)
    requires Shape(s) && op.DoCall? && op.callee < |s.threads| && op.ok && t < |s.threads|
    requires s.threads[op.callee].status == IdleCallee ==> s.threads[op.callee].calls == [] && op.callee != s.current
    ensures Asked(s, op, Asking(s, op).0, t)
  {
  }

  lemma TickingThread(s: State, op: Op, t: nat)
    requires Inv(s) && op.DoTick? && t < |s.threads|
    ensures Asked(s, op, Asking(s, op).0, t)
  {
    TickWakes(s, op.now, t);
    WakeSleepersSame(s, op.now);
  }

  lemma SpawningThread(s: State, op: Op, t: nat)
    requires Shape(s) && op.DoSpawnIdle? && op.fault.None? && s.idle.None? && |s.threads| < MAX_KERNEL_THREADS && t < |s.threads|
    ensures Asked(s, op, Asking(s, op).0, t)
  {
  }

  lemma AskedThread(s: State, op: Op, t: nat)
    requires Inv(s) && Allowed(s, op) && t < |s.threads| && Step(s, op).reply == Switched
    ensures Asked(s, op, Asking(s, op).0, t) && Asking(s, op).1 == GivenUp(op) && !op.DoResume? && !op.DoOverride?
  {
    if op.DoResume? { ResumeSafe(s); }
    else if op.DoTick? { TickingThread(s, op, t); }
    else if op.DoCall? { CallSwitches(s, op); CallingThread(s, op, t); }
    else if op.DoSpawnIdle? { SpawnNeeded(s, op); SpawningThread(s, op, t); }
    else { BlocksFor(s, op); AskingThread(s, op, t); }
  }

  lemma CallSwitches(s: State, op: Op)
    requires Inv(s) && InPool(op) && op.DoCall? && Step(s, op).reply == Switched
    ensures op.callee < |s.threads| && op.ok
    ensures s.threads[op.callee].status == IdleCallee ==> s.threads[op.callee].calls == [] && op.callee != s.current
  {
    assert Settled(s, op.callee);
  }

  lemma SpawnNeeded(s: State, op: Op)
    requires Inv(s) && Allowed(s, op) && op.DoSpawnIdle? && Step(s, op).reply == Switched
    ensures op.fault.None? && s.idle.None? && |s.threads| < MAX_KERNEL_THREADS
  {
  }

  lemma BlocksFor(s: State, op: Op)
    requires Inv(s) && InPool(op) && Step(s, op).reply == Switched && !op.DoResume? && !op.DoTick? && !op.DoCall? && !op.DoSpawnIdle?
    ensures op.DoSleep? || op.DoSleepUntil? || op.DoKill? || op.DoLock? || op.DoListen?
    ensures Asking(s, op).1 == GivenUp(op)
  {
  }

  /** The scheduling fields of thread t after a call. */
  predicate Fields(s: State, op: Op, r: Res, t: nat)
    requires s.current < |s.threads| && t < |s.threads|
  {
    && t < |r.s.threads| && (r.reply != Switched ==> r.s.current == s.current)
    && var th, th' := s.threads[t], r.s.threads[t];
       && th'.basePriority == th.basePriority
       && th'.priority == (if op.DoOverride? && op.t == t then op.priority else if op.DoTick? && t == s.current then th.basePriority else th.priority)
       && th'.status == (if t == r.s.current then Running else if t == s.current then GivenUp(op) else if Woken(s, op, t) then Ready else th.status)
       && th'.wait == (if t != s.current then th.wait else if op.DoResume? then NoWait else if r.reply == Switched then WaitsFor(op, th.wait) else th.wait)
       && th'.home == if Queues(s, op, t) then th'.priority else th.home
  }

  lemma SwitchFields(s: State, op: Op, a: State, r: Res, t: nat)
    requires s.current < |s.threads| && t < |s.threads| && Asked(s, op, a, t) && r.reply == Switched && !op.DoOverride? && !op.DoResume?
    requires s.threads[s.current].status == Running && !Woken(s, op, s.current) && GivenUp(op) != Running && (GivenUp(op) == Ready <==> op.DoTick?)
    requires t < |r.s.threads| && r.s.threads[t] == Scheduled(a.threads[t], t == a.current, GivenUp(op), t == r.s.current)
    ensures Fields(s, op, r, t)
  {
  }

  lemma UnlockFields(s: State, m: nat, t: nat)
    requires Inv(s) && Allowed(s, DoUnlock(m)) && t < |s.threads|
    ensures Fields(s, DoUnlock(m), UnlockMutex(s, m), t)
  {
    assert Sound(s, s.mutexes[m]);
    if s.mutexes[m].waiting != [] { FirstWaiter(s, m); }
  }

  lemma ReturnFields(s: State, op: Op, t: nat)
    requires Inv(s) && Allowed(s, op) && op.DoReturn? && t < |s.threads|
    ensures Fields(s, op, Step(s, op), t)
  {
    if op.rpc.callee == s.current { InService(s, op.rpc.caller); }
  }

  /** Calls that never ask the scheduler. */
  lemma PlainFields(s: State, op: Op, t: nat)
    requires Inv(s) && Allowed(s, op) && t < |s.threads|
    requires op.DoWakeup? || op.DoOverride? || op.DoCreateThread? || op.DoCreateMutex? || op.DoFreeMutex?
    ensures Fields(s, op, Step(s, op), t)
  {
    if op.DoWakeup? { WakeupFields(s, op, t); }
    else if op.DoCreateMutex? || op.DoFreeMutex? { MutexFields(s, op, t); }
  }

  lemma WakeupFields(s: State, op: Op, t: nat)
    requires Inv(s) && Allowed(s, op) && t < |s.threads| && op.DoWakeup?
    ensures Fields(s, op, Step(s, op), t)
  {
  }

  lemma MutexFields(s: State, op: Op, t: nat)
    requires Inv(s) && Allowed(s, op) && t < |s.threads| && (op.DoCreateMutex? || op.DoFreeMutex?)
    ensures Fields(s, op, Step(s, op), t)
  {
  }

  lemma ResumeFields(s: State, t: nat)
    requires Inv(s) && Allowed(s, DoResume) && t < |s.threads|
    ensures Fields(s, DoResume, Resume(s), t)
  {
    ResumeSafe(s);
  }

  /** Calls that block only in some states, where they do not. */
  lemma QuietFields(s: State, op: Op, t: nat)
    requires Inv(s) && Allowed(s, op) && t < |s.threads| && Step(s, op).reply != Switched
    requires op.DoSleepUntil? || op.DoSpawnIdle? || op.DoLock? || op.DoCall? || op.DoListen?
    ensures Fields(s, op, Step(s, op), t)
  {
    match op
    case DoCall(callee, command, buffers, ok) => CallReplies(s, callee, command, buffers, ok);
    case DoLock(m) => UncontendedFields(s, m, t);
    case DoSpawnIdle(fault) => SpawnSwitches(s, fault);
    case DoSleepUntil(time, ns) => SleepUntilSafe(s, time, ns);
    case DoListen => ListenedFields(s, t);
  }

  lemma UncontendedFields(s: State, m: nat, t: nat)
    requires Inv(s) && Allowed(s, DoLock(m)) && t < |s.threads| && LockMutex(s, m).reply != Switched
    ensures Fields(s, DoLock(m), LockMutex(s, m), t)
  {
    LockSafe(s, m);
  }

  lemma ListenedFields(s: State, t: nat)
    requires Inv(s) && Allowed(s, DoListen) && t < |s.threads| && RpcListen(s).reply != Switched
    ensures Fields(s, DoListen, RpcListen(s), t)
  {
    ListenSwitches(s);
  }

  lemma AlwaysSwitches(s: State, op: Op)
    requires Inv(s) && Allowed(s, op) && (op.DoTick? || op.DoSleep? || op.DoKill?)
    ensures Step(s, op).reply == Switched
  {
    match op
    case DoTick(now) => TickSafe(s, now);
    case DoSleep => SleepSafe(s);
    case DoKill => KillSafe(s);
  }

  lemma SpawnSwitches(s: State, fault: Option<int>)
    requires Inv(s) && Allowed(s, DoSpawnIdle(fault))
    ensures SpawnIdle(s, fault).reply == if s.idle.Some? then Ret(ESUCCESS) else Switched
  {
    SpawnIdleSafe(s, fault);
  }

  lemma ListenSwitches(s: State)
    requires Inv(s) && Allowed(s, DoListen)
    ensures s.threads[s.current].calls == [] ==> RpcListen(s).reply == Switched
    ensures s.threads[s.current].calls != [] ==> RpcListen(s).reply == Taken(s.threads[s.current].calls[0])
  {
    ListenSafe(s);
  }

  /**
   What a call does to the scheduling fields of each thread: nobody's base priority ever changes, the
   current priority only where it is set or where a tick puts the thread back to its base priority, and
   status, wait and queue change only as `Fields` says.
   */
  lemma StepFields(s: State, op: Op, t: nat)
    requires Inv(s) && Allowed(s, op) && t < |s.threads|
    ensures Fields(s, op, Step(s, op), t)
  {
    if op.DoUnlock? { UnlockFields(s, op.m, t); }
    else if op.DoReturn? { ReturnFields(s, op, t); }
    else if Step(s, op).reply == Switched { SwitchedFields(s, op, t); }
    else if op.DoTick? || op.DoSleep? || op.DoKill? { AlwaysSwitches(s, op); }
    else if op.DoSleepUntil? || op.DoSpawnIdle? || op.DoLock? || op.DoCall? || op.DoListen? { QuietFields(s, op, t); }
    else if op.DoResume? { ResumeFields(s, t); }
    else { PlainFields(s, op, t); }
  }

  lemma SwitchedFields(s: State, op: Op, t: nat)
    requires Inv(s) && Allowed(s, op) && t < |s.threads| && Step(s, op).reply == Switched
    ensures Fields(s, op, Step(s, op), t)
  {
    AsksFor(s, op);
    AskedThread(s, op, t);
    ScheduleThread(Asking(s, op).0, GivenUp(op), t);
    SwitchFields(s, op, Asking(s, op).0, Step(s, op), t);
  }

  /** The threads a call adds: at most one, IDLE with nothing queued, whose two priorities are the one asked for. */
  lemma NewThread(s: State, op: Op)
    requires Inv(s) && Allowed(s, op)
    ensures var r, n := Step(s, op), |s.threads|;
      && |r.s.threads| == (if (op.DoCreateThread? && r.reply.Id?) || (op.DoSpawnIdle? && s.idle.None?) then n + 1 else n)
      && (op.DoCreateThread? && |r.s.threads| > n ==>
            r.s.threads[n] == Thread(Idle, op.priority, op.priority, NoWait, [], 0, 0, multiset{}))
      && r.s.idle == (if op.DoSpawnIdle? && s.idle.None? then Some(n) else s.idle)
      && (op.DoSpawnIdle? && s.idle.None? ==>
            && r.s.threads[n].priority == r.s.threads[n].basePriority == r.s.threads[n].home == 1 && r.s.threads[n].wait == NoWait
            && r.s.threads[n].status == if r.s.current == n then Running else Ready)
  {
    if op.DoSpawnIdle? { SpawnedThread(s, op); }
    else if op.DoCreateThread? { assert Step(s, op) == CreateThread(s, op.priority, op.nameFits, op.fault); }
    else {
      ToldStep(s, op, s.current);
      IdleStays(s, op);
    }
  }

  lemma SpawnedThread(s: State, op: Op)
    requires Inv(s) && Allowed(s, op) && op.DoSpawnIdle?
    ensures var r, n := Step(s, op).s, |s.threads|;
      && r.idle == (if s.idle.None? then Some(n) else s.idle) && |r.threads| == (if s.idle.None? then n + 1 else n)
      && (s.idle.None? ==>
            && r.threads[n].priority == r.threads[n].basePriority == r.threads[n].home == 1 && r.threads[n].wait == NoWait
            && r.threads[n].status == if r.current == n then Running else Ready)
  {
    SpawnSwitches(s, op.fault);
    if s.idle.None? {
      SpawnAsks(s, op);
      ScheduleThread(Asking(s, op).0, Terminated, |s.threads|);
    }
  }

  lemma ScheduleIdle(a: State, st: Status)
    requires Shape(a)
    ensures Schedule(a, st).s.idle == a.idle
  {
  }

  lemma {:induction false} SleepersIdle(s: State, now: nat)
    requires Shape(s)
    ensures WakeSleepers(s, now).idle == s.idle
    decreases |s.sleepers|
  {
    if |s.sleepers| > 0 && s.sleepers[0].time <= now {
      PopKeeps(s.sleepers);
      SleepersIdle(WakeFirst(s), now);
    }
  }

  lemma IdleStays(s: State, op: Op)
    requires Inv(s) && Allowed(s, op) && !op.DoSpawnIdle? && !op.DoCreateThread?
    ensures Step(s, op).s.idle == s.idle
  {
    if Step(s, op).reply == Switched {
      AsksFor(s, op);
      if op.DoTick? { SleepersIdle(s, op.now); }
      ScheduleIdle(Asking(s, op).0, Asking(s, op).1);
      AskingIdle(s, op);
    } else {
      StepSafe(s, op);
      QuietIdle(s, op);
    }
  }

  lemma AskingIdle(s: State, op: Op)
    requires Shape(s) && InPool(op) && !op.DoSpawnIdle? && (op.DoTick? ==> WakeSleepers(s, op.now).idle == s.idle)
    ensures Asking(s, op).0.idle == s.idle
  {
  }

  lemma QuietIdle(s: State, op: Op)
    requires Shape(s) && InPool(op) && !op.DoSpawnIdle? && Step(s, op).reply != Switched
    ensures Step(s, op).s.idle == s.idle
  {
    if op.DoTick? { SleepersIdle(s, op.now); }
  }

  // ---------- what the caller is told ----------

  /** The answer a call gives, for each reason. A call to kmt_resume has none of its own. */
  predicate Tells(s: State, op: Op, reply: Reply)
    requires s.current < |s.threads| && |s.mutexes| == KMT_MAX_MUTEXES
  {
    match op
    case DoSleepUntil(time, ns) => reply == if ns >= time * Timer.NS_PER_MS then Ret(ESUCCESS) else Switched
    case DoResume => reply == Ret(ESUCCESS) || reply.Answer? || reply.Taken?
    case DoWakeup(t) =>
      reply == Ret(if t >= |s.threads| then EINVAL else if s.threads[t].status == Terminated then ETERMINATED else ESUCCESS)
    case DoOverride(t, _) => reply == Ret(if t >= |s.threads| then EOUTOFRANGE else ESUCCESS)
    case DoCreateThread(p, nameFits, fault) =>
      if |s.threads| == MAX_KERNEL_THREADS then reply == Ret(0x8000 + EPOOLFULL)
      else if !nameFits then reply == Ret(0x8000 + ESTRTOOBIG)
      else if p >= QUEUES then reply == Ret(0x8000 + EINVAL)
      else reply == match fault { case Some(e) => Ret(0x8000 + e) case None => Id(|s.threads|) }
    case DoSpawnIdle(_) => reply == if s.idle.Some? then Ret(ESUCCESS) else Switched
    case DoCreateMutex => reply.Id? || reply == Ret(0x8000 + EPOOLFULL)
    case DoLock(m) =>
      m < KMT_MAX_MUTEXES &&
      var x := s.mutexes[m];
      reply == if !x.used then Ret(EUSEFREED) else if x.owner in {None, Some(s.current)} then Ret(ESUCCESS) else Switched
    case DoUnlock(m) =>
      m < KMT_MAX_MUTEXES &&
      var x := s.mutexes[m];
      reply == Ret(if !x.used then EUSEFREED else if x.owner == Some(s.current) then ESUCCESS else ENOTOWNED)
    case DoFreeMutex(m) =>
      m < KMT_MAX_MUTEXES &&
      var x := s.mutexes[m];
      reply == Ret(if !x.used then EINVAL else if x.owner == None then ESUCCESS else EINUSE)
    case DoCall(callee, _, _, ok) => reply == if callee >= |s.threads| then Ret(EOUTOFRANGE) else if ok then Switched else Ret(EINVPTR)
    case DoListen => reply == if s.threads[s.current].calls == [] then Switched else Taken(s.threads[s.current].calls[0])
    case DoReturn(rpc, descOk, buffersOk, code) =>
      reply == Ret(if !descOk then EINVPTR else if rpc.caller >= |s.threads| then EOUTOFRANGE else if rpc.callee != s.current then EINVAL
                   else if !buffersOk then EINVPTR else if code == EPENDING then EINVAL else ESUCCESS)
    case _ => reply == Switched
  }

  lemma UnlockReplies(s: State, m: nat)
    requires Inv(s) && Allowed(s, DoUnlock(m))
    ensures Tells(s, DoUnlock(m), UnlockMutex(s, m).reply)
  {
    assert Sound(s, s.mutexes[m]);
    UnlockSafe(s, m);
  }

  lemma SwitchReplies(s: State, op: Op)
    requires Inv(s) && Allowed(s, op)
    requires op.DoSleepUntil? || op.DoSpawnIdle? || op.DoLock? || op.DoCall? || op.DoListen? || op.DoTick? || op.DoSleep? || op.DoKill?
    ensures Tells(s, op, Step(s, op).reply)
  {
    match op
    case DoCall(callee, command, buffers, ok) => CallReplies(s, callee, command, buffers, ok);
    case DoLock(m) => LockSafe(s, m);
    case DoSpawnIdle(fault) => SpawnSwitches(s, fault);
    case DoSleepUntil(time, ns) => SleepUntilSafe(s, time, ns);
    case DoListen => ListenSwitches(s);
    case _ => AlwaysSwitches(s, op);
  }

  lemma PlainReplies(s: State, op: Op)
    requires Inv(s) && Allowed(s, op)
    requires op.DoResume? || op.DoWakeup? || op.DoOverride? || op.DoCreateThread? || op.DoCreateMutex? || op.DoFreeMutex? || op.DoReturn?
    ensures Tells(s, op, Step(s, op).reply)
  {
    StepSafe(s, op);
    if op.DoResume? { ResumeSafe(s); }
  }

  /** Every call answers as `Tells` says, and with an error it has changed nothing. */
  lemma StepReplies(s: State, op: Op)
    requires Inv(s) && Allowed(s, op)
    ensures Tells(s, op, Step(s, op).reply)
    ensures Step(s, op).reply.Ret? && Step(s, op).reply.err != ESUCCESS ==> Step(s, op).s == s
  {
    if op.DoUnlock? { UnlockReplies(s, op.m); }
    else if op.DoResume? || op.DoWakeup? || op.DoOverride? || op.DoCreateThread? || op.DoCreateMutex? || op.DoFreeMutex? || op.DoReturn? { PlainReplies(s, op); }
    else { SwitchReplies(s, op); }
    if Step(s, op).reply.Ret? && Step(s, op).reply.err != ESUCCESS { ErrorsChangeNothing(s, op); }
  }

  lemma ErrorsChangeNothing(s: State, op: Op)
    requires Inv(s) && Allowed(s, op) && Step(s, op).reply.Ret? && Step(s, op).reply.err != ESUCCESS
    ensures Step(s, op).s == s
  {
    if op.DoResume? { ResumeSafe(s); }
    else if op.DoUnlock? { UnlockReplies(s, op.m); }
    else if op.DoCreateMutex? { CreateMutexExact(s); }
    else { OtherErrors(s, op); }
  }

  lemma OtherErrors(s: State, op: Op)
    requires Shape(s) && InPool(op) && !op.DoResume? && !op.DoUnlock? && !op.DoCreateMutex? && Step(s, op).reply.Ret? && Step(s, op).reply.err != ESUCCESS
    ensures Step(s, op).s == s
  {
  }

  /**
   A resumed call in any state, allowed or not: a thread in the middle of kmt_lock_mutex goes on only as the owner,
   a caller only with an answer, and a callee without a call panics.
   */
  lemma ResumeExact(s: State)
    requires Shape(s)
    ensures var th, reply := s.threads[s.current], Resume(s).reply;
      match th.wait
      case InLock(m) => reply == Ret(ESUCCESS) <==> m < KMT_MAX_MUTEXES && s.mutexes[m].owner == Some(s.current)
      case InCall(_) => if th.ret == EPENDING then !reply.Answer? else reply == Answer(th.ret)
      case InListen => if th.calls == [] then reply == Halted else reply == Taken(th.calls[0])
      case _ => reply == Ret(ESUCCESS)
  {
  }

  /** kmt_sleep_until panics whenever the heap is full, even if the time has passed. */
  lemma FullHeapPanics(s: State, time: nat, ns: nat)
    requires Shape(s) && |s.sleepers| >= MAX_KERNEL_THREADS
    ensures SleepUntil(s, time, ns) == Res(s, Halted)
  {
  }

  /** kmt_spawn_idle_thread panics exactly if there is no idle thread yet and none can be made. */
  lemma SpawnPanicExact(s: State, fault: Option<int>)
    requires Inv(s) && s.threads[s.current].wait == NoWait
    ensures SpawnIdle(s, fault).reply == Halted <==> s.idle.None? && (fault.Some? || |s.threads| == MAX_KERNEL_THREADS)
  {
    if s.idle.None? && fault.None? && |s.threads| < MAX_KERNEL_THREADS { SpawnIdleSafe(s, fault); }
  }

  /** At first the boot thread runs, with both priorities 0; nothing is queued, there is no idle thread, and the first mutex will be number 0. */
  lemma InitExact()
    ensures var s := Init();
      && |s.threads| == 1 && s.current == 0 && s.threads[0].status == Running && s.threads[0].priority == s.threads[0].basePriority == 0
      && s.threads[0].wait == NoWait && s.threads[0].calls == [] && s.idle == None && s.sleepers == []
      && (forall p | 0 <= p < |s.ready| :: s.ready[p] == []) && (forall m | 0 <= m < |s.mutexes| :: s.mutexes[m] == Mutex(false, None, []))
      && Shape(s) && CreateMutex(s).reply == Id(0)
  {
    InitInv();
  }

  // ---------- the ready queues ----------

  /** Thread u, if the call wakes it and its priority is p. */
  function Joining(s: State, op: Op, u: nat, p: nat): seq<nat>
    requires Shape(s)
  {
    if u < |s.threads| && Woken(s, op, u) && s.threads[u].priority == p then [u] else []
  }

  /** The threads that join ready queue p with the call, in order. */
  function Arrived(s: State, op: Op, p: nat): seq<nat>
    requires Shape(s)
  {
    match op
    case DoTick(now) =>
      WokenTo(Due(s.sleepers, now).0, s.threads, p) + (if s.threads[s.current].basePriority == p then [s.current] else [])
    case DoSpawnIdle(_) => if s.idle.None? && p == 1 then [|s.threads|] else []
    case DoWakeup(u) => Joining(s, op, u, p)
    case DoUnlock(m) => if m < |s.mutexes| && s.mutexes[m].waiting != [] then Joining(s, op, s.mutexes[m].waiting[0], p) else []
    case DoCall(callee, _, _, _) => Joining(s, op, callee, p)
    case DoReturn(rpc, _, _, _) => Joining(s, op, rpc.caller, p)
    case _ => []
  }

  /** Ready queue p with the threads that join it. */
  function Line(s: State, op: Op, p: nat): seq<nat>
    requires Shape(s) && p < QUEUES
  {
    s.ready[p] + Arrived(s, op, p)
  }

  lemma TickLine(s: State, op: Op, p: nat)
    requires Inv(s) && op.DoTick? && p < QUEUES
    ensures Retire(Asking(s, op).0, Ready).ready[p] == Line(s, op, p)
  {
    var c, w := s.current, WakeSleepers(s, op.now);
    TickQueues(s, op.now, p);
    TickWakes(s, op.now, c);
    WakeSleepersSame(s, op.now);
    var woken, last := WokenTo(Due(s.sleepers, op.now).0, s.threads, p), if s.threads[c].basePriority == p then [c] else [];
    RetiredLine(w, p, last);
    Append(s.ready[p], woken, last);
    assert Arrived(s, op, p) == woken + last;
  }

  lemma Append(a: seq<nat>, b: seq<nat>, c: seq<nat>)
    ensures a + b + c == a + (b + c)
  {
  }

  lemma RetiredLine(w: State, p: nat, last: seq<nat>)
    requires Shape(w) && w.threads[w.current].status != Terminated && p < QUEUES
    requires last == if w.threads[w.current].basePriority == p then [w.current] else []
    ensures Retire(w, Ready).ready[p] == w.ready[p] + last
  {
  }

  lemma CallLine(s: State, op: Op, p: nat)
    requires Inv(s) && op.DoCall? && op.callee < |s.threads| && op.ok && p < QUEUES
    ensures Retire(Asking(s, op).0, IdleCaller).ready[p] == Line(s, op, p)
  {
    assert Settled(s, op.callee);
  }

  lemma SpawnLine(s: State, op: Op, p: nat)
    requires Inv(s) && Allowed(s, op) && op.DoSpawnIdle? && s.idle.None? && p < QUEUES
    ensures Retire(Asking(s, op).0, Terminated).ready[p] == Line(s, op, p)
  {
  }

  lemma OtherLine(s: State, op: Op, p: nat)
    requires Shape(s) && InPool(op) && p < QUEUES && (op.DoSleep? || op.DoSleepUntil? || op.DoKill? || op.DoLock? || op.DoListen?)
    ensures Retire(Asking(s, op).0, GivenUp(op)).ready[p] == Line(s, op, p)
  {
    assert s.ready[p] + [] == s.ready[p];
  }

  lemma AskingLine(s: State, op: Op, p: nat)
    requires Inv(s) && Allowed(s, op) && Step(s, op).reply == Switched && p < QUEUES
    ensures Retire(Asking(s, op).0, Asking(s, op).1).ready[p] == Line(s, op, p)
  {
    AskedThread(s, op, s.current);
    StepReplies(s, op);
    if op.DoTick? { TickLine(s, op, p); }
    else if op.DoCall? { CallLine(s, op, p); }
    else if op.DoSpawnIdle? { SpawnLine(s, op, p); }
    else { OtherLine(s, op, p); }
  }

  /** Queue p is the highest one that is not empty. */
  ghost predicate Top(lines: seq<seq<nat>>, p: nat)
    requires p < |lines|
  {
    lines[p] != [] && forall q | p < q < |lines| :: lines[q] == []
  }

  lemma Picked(ret: State, p: nat)
    requires Shape(ret) && Dispatch(ret).Some? && Mapped(Dispatch(ret).value) && p < QUEUES
    ensures var r := Dispatch(ret).value;
      |r.ready| == QUEUES && if Top(ret.ready, p) then ret.ready[p] == [r.current] + r.ready[p] else r.ready[p] == ret.ready[p]
  {
    var r, h := Dispatch(ret).value, BitLen(ret.bitmap) - 1;
    HighestBit(ret.bitmap);
    forall q | h < q < QUEUES ensures ret.ready[q] == [] {
      BitOfClear(ret.bitmap, h, q);
      assert Bit(r.bitmap, q) <==> r.ready[q] != [];
    }
    assert Top(ret.ready, p) ==> p == h;
    assert ret.ready[h] == [r.current] + r.ready[h];
  }

  /** All the queues with the threads that join them. */
  function Lines(s: State, op: Op): (r: seq<seq<nat>>)
    requires Shape(s)
    ensures |r| == QUEUES && forall p | 0 <= p < QUEUES :: r[p] == Line(s, op, p)
  {
    seq(QUEUES, p requires 0 <= p < QUEUES => Line(s, op, p))
  }

  /**
   What a call does to each ready queue: the threads it makes ready join the end of the queue of their
   priority; and if it switches, the first thread of the highest queue leaves it and runs.
   */
  lemma StepQueues(s: State, op: Op, p: nat)
    requires Inv(s) && Allowed(s, op) && p < QUEUES
    ensures var r, lines := Step(s, op), Lines(s, op);
      && |r.s.ready| == QUEUES
      && if r.reply == Switched && Top(lines, p) then lines[p] == [r.s.current] + r.s.ready[p] else r.s.ready[p] == lines[p]
  {
    if Step(s, op).reply == Switched {
      SwitchedLines(s, op, p);
    } else {
      StepReplies(s, op);
      QuietLine(s, op, p);
    }
  }

  lemma SwitchedLines(s: State, op: Op, p: nat)
    requires Inv(s) && Allowed(s, op) && p < QUEUES && Step(s, op).reply == Switched
    ensures var r, lines := Step(s, op).s, Lines(s, op);
      |r.ready| == QUEUES && if Top(lines, p) then lines[p] == [r.current] + r.ready[p] else r.ready[p] == lines[p]
  {
    var ret := Retire(Asking(s, op).0, Asking(s, op).1);
    StepSafe(s, op);
    AsksFor(s, op);
    SameLines(s, op, ret);
    Picked(ret, p);
  }

  lemma SameLines(s: State, op: Op, ret: State)
    requires Inv(s) && Allowed(s, op) && Step(s, op).reply == Switched && ret == Retire(Asking(s, op).0, Asking(s, op).1)
    ensures ret.ready == Lines(s, op)
  {
    forall q: nat | q < QUEUES ensures ret.ready[q] == Lines(s, op)[q] { AskingLine(s, op, q); }
  }

  lemma QuietLine(s: State, op: Op, p: nat)
    requires Inv(s) && Allowed(s, op) && p < QUEUES && Step(s, op).reply != Switched && Tells(s, op, Step(s, op).reply)
    ensures |Step(s, op).s.ready| == QUEUES && Step(s, op).s.ready[p] == Line(s, op, p)
  {
    match op
    case DoUnlock(m) => UnlockLine(s, m, p);
    case DoReturn(_, _, _, _) => ReturnLine(s, op, p);
    case DoWakeup(_) => WakeupLine(s, op, p);
    case _ => IdleLine(s, op, p);
  }

  lemma WakeupLine(s: State, op: Op, p: nat)
    requires Inv(s) && Allowed(s, op) && p < QUEUES && op.DoWakeup?
    ensures |Step(s, op).s.ready| == QUEUES && Step(s, op).s.ready[p] == Line(s, op, p)
  {
    assert s.ready[p] + [] == s.ready[p];
  }

  /** Nobody becomes ready. */
  lemma IdleLine(s: State, op: Op, p: nat)
    requires Inv(s) && Allowed(s, op) && p < QUEUES && Step(s, op).reply != Switched && Tells(s, op, Step(s, op).reply)
    requires !op.DoUnlock? && !op.DoReturn? && !op.DoWakeup?
    ensures |Step(s, op).s.ready| == QUEUES && Step(s, op).s.ready[p] == Line(s, op, p)
  {
    assert Arrived(s, op, p) == [];
    assert s.ready[p] + [] == s.ready[p];
    ReadySame(s, op);
  }

  lemma ReadySame(s: State, op: Op)
    requires Inv(s) && Allowed(s, op) && Step(s, op).reply != Switched && Tells(s, op, Step(s, op).reply)
    requires !op.DoUnlock? && !op.DoReturn? && !op.DoWakeup?
    ensures Step(s, op).s.ready == s.ready
  {
  }

  lemma ReturnLine(s: State, op: Op, p: nat)
    requires Inv(s) && Allowed(s, op) && p < QUEUES && op.DoReturn?
    ensures |Step(s, op).s.ready| == QUEUES && Step(s, op).s.ready[p] == Line(s, op, p)
  {
    assert s.ready[p] + [] == s.ready[p];
    if op.rpc.callee == s.current { InService(s, op.rpc.caller); }
  }

  lemma UnlockLine(s: State, m: nat, p: nat)
    requires Inv(s) && Allowed(s, DoUnlock(m)) && p < QUEUES
    ensures |UnlockMutex(s, m).s.ready| == QUEUES && UnlockMutex(s, m).s.ready[p] == Line(s, DoUnlock(m), p)
  {
    assert Sound(s, s.mutexes[m]);
    assert s.ready[p] + [] == s.ready[p];
    if s.mutexes[m].waiting != [] { FirstWaiter(s, m); }
  }

  // ---------- new mutexes ----------

  /**
   The number kmt_create_mutex answers names a slot that was unused and now holds a free mutex nobody waits
   for, every other slot being as it was; it refuses exactly when every slot is used.
   */
  lemma CreateMutexExact(s: State)
    requires Inv(s)
    ensures var r := CreateMutex(s);
      match r.reply
      case Id(m) =>
        && m < KMT_MAX_MUTEXES == |r.s.mutexes| && !s.mutexes[m].used && r.s.mutexes[m] == Mutex(true, None, [])
        && forall k | 0 <= k < KMT_MAX_MUTEXES && k != m :: r.s.mutexes[k] == s.mutexes[k]
      case Ret(e) => e == 0x8000 + EPOOLFULL && r.s == s && forall k | 0 <= k < KMT_MAX_MUTEXES :: s.mutexes[k].used
      case _ => false
  {
    if s.mutexCount >= KMT_MAX_MUTEXES { AllUsed(s.mutexes, 0); }
  }

  lemma {:induction false} AllUsed(ms: seq<Mutex>, i: nat)
    requires i <= |ms|
    ensures FirstFree(ms, i) == |ms| ==> forall k | i <= k < |ms| :: ms[k].used
    decreases |ms| - i
  {
    if i < |ms| { AllUsed(ms, i + 1); }
  }

  /** A mutex that has just been made can be locked at once, and is owned then. */
  lemma CreateThenLock(s: State)
    requires Inv(s) && CreateMutex(s).reply.Id?
    ensures var r, m := CreateMutex(s).s, CreateMutex(s).reply.id;
      && m < KMT_MAX_MUTEXES && Shape(r)
      && LockMutex(r, m).reply == Ret(ESUCCESS) && LockMutex(r, m).s.mutexes[m].owner == Some(s.current)
  {
    CreateMutexExact(s);
    CreateMutexSafe(s);
  }

  // ---------- priorities over runs ----------

  /** A thread keeps the base priority it was created with for ever. */
  lemma {:induction false} BasePriorityForever(ops: seq<Op>, states: seq<State>, t: nat, i: nat, j: nat)
    requires RunOf(ops, states) && i <= j <= |ops| && t < |states[i].threads|
    ensures t < |states[j].threads| && states[j].threads[t].basePriority == states[i].threads[t].basePriority
  {
    if i < j {
      BasePriorityForever(ops, states, t, i, j - 1);
      RunSafe(ops, states, j - 1);
      assert StepAt(ops, states, j - 1);
      StepFields(states[j - 1], ops[j - 1], t);
    }
  }

  /** Step k sets the current priority of t, or puts it back to the base priority. */
  predicate SetsPriority(ops: seq<Op>, states: seq<State>, t: nat, k: nat)
    requires k < |ops| < |states|
  {
    (ops[k].DoOverride? && ops[k].t == t) || (ops[k].DoTick? && states[k].current == t)
  }

  /** Its current priority changes only by an override, or by a tick that takes the CPU from it. */
  lemma {:induction false} PriorityKept(ops: seq<Op>, states: seq<State>, t: nat, i: nat, j: nat)
    requires RunOf(ops, states) && i <= j <= |ops| && t < |states[i].threads|
    requires forall k | i <= k < j :: !SetsPriority(ops, states, t, k)
    ensures t < |states[j].threads| && states[j].threads[t].priority == states[i].threads[t].priority
  {
    if i < j {
      PriorityKept(ops, states, t, i, j - 1);
      RunSafe(ops, states, j - 1);
      assert StepAt(ops, states, j - 1) && !SetsPriority(ops, states, t, j - 1);
      StepFields(states[j - 1], ops[j - 1], t);
    }
  }

  /**
   Over every run: after a tick the thread that was running has its base priority again, whatever it was
   overridden with, and either runs on or is the last of the ready queue of its base priority.
   */
  lemma PreemptedGoesBack(ops: seq<Op>, states: seq<State>, i: nat)
    requires RunOf(ops, states) && i < |ops| && ops[i].DoTick?
    ensures var c, r := states[i].current, states[i + 1];
      && c < |states[i].threads| && c < |r.threads| && |r.ready| == QUEUES
      && var p := states[i].threads[c].basePriority;
         && p < QUEUES && r.threads[c].priority == r.threads[c].basePriority == p
         && (r.current == c || (r.threads[c].status == Ready && r.ready[p] != [] && r.ready[p][|r.ready[p]| - 1] == c))
  {
    RunSafe(ops, states, i);
    assert StepAt(ops, states, i);
    Preempted(states[i], ops[i]);
  }

  lemma Preempted(s: State, op: Op)
    requires Inv(s) && Allowed(s, op) && op.DoTick?
    ensures var c, r := s.current, Step(s, op).s;
      && c < |r.threads| && |r.ready| == QUEUES
      && var p := s.threads[c].basePriority;
         && p < QUEUES && r.threads[c].priority == r.threads[c].basePriority == p
         && (r.current == c || (r.threads[c].status == Ready && r.ready[p] != [] && r.ready[p][|r.ready[p]| - 1] == c))
  {
    StepFields(s, op, s.current);
    Requeued(s, op, s.current, s.threads[s.current].basePriority);
  }

  lemma Requeued(s: State, op: Op, c: nat, p: nat)
    requires Inv(s) && Allowed(s, op) && op.DoTick? && c == s.current && p == s.threads[c].basePriority
    ensures var r := Step(s, op).s;
      |r.ready| == QUEUES && p < QUEUES && (r.current == c || (r.ready[p] != [] && r.ready[p][|r.ready[p]| - 1] == c))
  {
    var _, _ := MovedLine(s, op, p);
  }

  lemma MovedLine(s: State, op: Op, p: nat) returns (next: nat, rest: seq<nat>)
    requires Inv(s) && Allowed(s, op) && op.DoTick? && p == s.threads[s.current].basePriority
    ensures p < QUEUES == |Step(s, op).s.ready| && next == Step(s, op).s.current && rest == Step(s, op).s.ready[p]
    ensures next == s.current || (rest != [] && rest[|rest| - 1] == s.current)
  {
    var front := LastInLine(s, op, p);
    LineMoves(s, op, p);
    next, rest := Step(s, op).s.current, Step(s, op).s.ready[p];
    EndsWith(Lines(s, op)[p], front, s.current, next, rest);
  }

  lemma LineMoves(s: State, op: Op, p: nat)
    requires Inv(s) && Allowed(s, op) && p < QUEUES
    ensures var r := Step(s, op).s; |r.ready| == QUEUES && (r.ready[p] == Lines(s, op)[p] || Lines(s, op)[p] == [r.current] + r.ready[p])
  {
    StepQueues(s, op, p);
  }

  lemma LastInLine(s: State, op: Op, p: nat) returns (front: seq<nat>)
    requires Shape(s) && op.DoTick? && p == s.threads[s.current].basePriority
    ensures p < QUEUES && Lines(s, op)[p] == front + [s.current]
  {
    var woken := WokenTo(Due(s.sleepers, op.now).0, s.threads, p);
    front := s.ready[p] + woken;
    Append(s.ready[p], woken, [s.current]);
  }

  lemma EndsWith(line: seq<nat>, front: seq<nat>, c: nat, next: nat, rest: seq<nat>)
    requires line == front + [c] && (rest == line || line == [next] + rest)
    ensures next == c || (rest != [] && rest[|rest| - 1] == c)
  {
    assert line[|line| - 1] == c;
    if rest != [] { assert line[|line| - 1] == rest[|rest| - 1]; } else { assert line[0] == next; }
  }
}
