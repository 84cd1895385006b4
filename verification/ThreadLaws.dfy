/** Laws over whole runs of the thread system, and exactly when the calls misbehave without the rules. */
module ThreadLaws {
  import opened Bits
  import opened Options
  import opened SleepHeap
  import opened Threads
  import opened ThreadInv
  import opened ThreadSteps
  import opened ThreadRuns
  import opened ThreadProps
  import Timer

  /** All that f gives for 0, .., i - 1. */
  function Total<T>(f: nat -> seq<T>, i: nat): seq<T> {
    if i == 0 then [] else Total(f, i - 1) + f(i - 1)
  }

  /** A queue that each step moves along: what joins it leaves it in the same order. */
  lemma {:induction false} Balance<T>(joins: nat -> seq<T>, leaves: nat -> seq<T>, queue: nat -> seq<T>, i: nat)
    requires queue(0) == [] && forall k: nat | k < i :: queue(k) + joins(k) == leaves(k) + queue(k + 1)
    ensures Total(joins, i) == Total(leaves, i) + queue(i)
  {
    if i > 0 {
      Balance(joins, leaves, queue, i - 1);
      var done := Total(leaves, i - 1);
      assert done + queue(i - 1) + joins(i - 1) == done + (queue(i - 1) + joins(i - 1));
      assert done + leaves(i - 1) + queue(i) == done + (leaves(i - 1) + queue(i));
    }
  }

  // ---------- mutexes over runs ----------

  /** For each step, the thread that had to wait for m in it. */
  function Arrivals(ops: seq<Op>, states: seq<State>, m: nat): nat -> seq<nat>
    requires |ops| < |states|
  {
    (k: nat) => if k < |ops| then Joins(states[k], ops[k], m) else []
  }

  /** For each step, the thread an unlock handed m to in it. */
  function Handovers(ops: seq<Op>, states: seq<State>, m: nat): nat -> seq<nat>
    requires |ops| < |states|
  {
    (k: nat) => if k < |ops| then Grants(states[k], ops[k], m, states[k + 1]) else []
  }

  /** The threads waiting for m at each moment. */
  function Waiters(states: seq<State>, m: nat): nat -> seq<nat> {
    (k: nat) => if k < |states| && m < |states[k].mutexes| then states[k].mutexes[m].waiting else []
  }

  lemma MutexStepOf(s: State, op: Op, m: nat)
    requires Inv(s) && Allowed(s, op) && m < KMT_MAX_MUTEXES
    ensures |Step(s, op).s.mutexes| == KMT_MAX_MUTEXES
    ensures var x, r := s.mutexes[m], Step(s, op).s;
      var y := r.mutexes[m];
      && x.waiting + Joins(s, op, m) == Grants(s, op, m, r) + y.waiting
      && (x.owner.Some? ==> (y.owner != x.owner <==> op == DoUnlock(m) && x.owner == Some(s.current)))
      && (x.owner.Some? && y.owner != x.owner ==> y.owner == if x.waiting == [] then None else Some(x.waiting[0]))
  {
    StepMutexes(s, op);
    if op.DoUnlock? && s.mutexes[m].waiting != [] { FirstWaiter(s, m); }
    MutexStep(s, op, Step(s, op).s, m);
  }

  /** The same in a run. */
  lemma MutexMoves(ops: seq<Op>, states: seq<State>, m: nat, i: nat)
    requires RunOf(ops, states) && i < |ops| && m < KMT_MAX_MUTEXES
    ensures |states[i].mutexes| == KMT_MAX_MUTEXES && |states[i + 1].mutexes| == KMT_MAX_MUTEXES
    ensures var x, y := states[i].mutexes[m], states[i + 1].mutexes[m];
      && x.waiting + Joins(states[i], ops[i], m) == Grants(states[i], ops[i], m, states[i + 1]) + y.waiting
      && (x.owner.Some? ==> (y.owner != x.owner <==> ops[i] == DoUnlock(m) && x.owner == Some(states[i].current)))
      && (x.owner.Some? && y.owner != x.owner ==> y.owner == if x.waiting == [] then None else Some(x.waiting[0]))
  {
    RunSafe(ops, states, i);
    assert StepAt(ops, states, i);
    MutexStepOf(states[i], ops[i], m);
  }

  lemma NobodyWaitsAtFirst(ops: seq<Op>, states: seq<State>, m: nat)
    requires RunOf(ops, states)
    ensures Waiters(states, m)(0) == []
  {
  }

  lemma WaitersMove(ops: seq<Op>, states: seq<State>, m: nat, i: nat)
    requires RunOf(ops, states) && i < |ops| && m < KMT_MAX_MUTEXES
    ensures Waiters(states, m)(i) + Arrivals(ops, states, m)(i) == Handovers(ops, states, m)(i) + Waiters(states, m)(i + 1)
  {
    MutexMoves(ops, states, m, i);
  }

  /** Waiters get a mutex in the order they came, and those not served yet are still waiting. */
  lemma MutexFifo(ops: seq<Op>, states: seq<State>, m: nat, i: nat)
    requires RunOf(ops, states) && i <= |ops| && m < KMT_MAX_MUTEXES
    ensures Total(Arrivals(ops, states, m), i) == Total(Handovers(ops, states, m), i) + Waiters(states, m)(i)
  {
    NobodyWaitsAtFirst(ops, states, m);
    forall k: nat | k < i ensures Waiters(states, m)(k) + Arrivals(ops, states, m)(k) == Handovers(ops, states, m)(k) + Waiters(states, m)(k + 1) {
      WaitersMove(ops, states, m, k);
    }
    Balance(Arrivals(ops, states, m), Handovers(ops, states, m), Waiters(states, m), i);
  }

  /** Between two moments at which t owns a mutex without having unlocked it, nobody else ever owns it. */
  lemma {:induction false} MutualExclusion(ops: seq<Op>, states: seq<State>, m: nat, t: nat, i: nat, j: nat)
    requires RunOf(ops, states) && i <= j <= |ops| && m < KMT_MAX_MUTEXES
    requires |states[i].mutexes| == KMT_MAX_MUTEXES && states[i].mutexes[m].owner == Some(t)
    requires forall k | i <= k < j :: !(ops[k] == DoUnlock(m) && states[k].current == t)
    ensures |states[j].mutexes| == KMT_MAX_MUTEXES && states[j].mutexes[m].owner == Some(t)
  {
    if i < j {
      MutualExclusion(ops, states, m, t, i, j - 1);
      MutexMoves(ops, states, m, j - 1);
    }
  }

  // ---------- calls over runs ----------

  /** For each step, the call made to t in it. */
  function AllMade(ops: seq<Op>, states: seq<State>, t: nat): nat -> seq<Rpc>
    requires |ops| < |states|
  {
    (k: nat) => if k < |ops| then Made(states[k], ops[k], t) else []
  }

  /** For each step, the call t took in it. */
  function AllTaken(ops: seq<Op>, states: seq<State>, t: nat): nat -> seq<Rpc>
    requires |ops| < |states|
  {
    (k: nat) => if k < |ops| then TakenBy(states[k], ops[k], t) else []
  }

  function CallsOf(s: State, t: nat): seq<Rpc> {
    if t < |s.threads| then s.threads[t].calls else []
  }

  /** The calls queued for t at each moment. */
  function Queued(states: seq<State>, t: nat): nat -> seq<Rpc> {
    (k: nat) => if k < |states| then CallsOf(states[k], t) else []
  }

  /** A thread that is created has no calls queued. */
  lemma NewThreadsIdle(s: State, op: Op, t: nat)
    requires Inv(s) && Allowed(s, op) && |s.threads| <= t
    ensures CallsOf(Step(s, op).s, t) == []
  {
    if op.DoSpawnIdle? { SpawnedIdle(s, op.fault, t); }
    else if op.DoCreateThread? { assert Step(s, op) == CreateThread(s, op.priority, op.nameFits, op.fault); }
    else { ToldStep(s, op, s.current); }
  }

  lemma SpawnedIdle(s: State, fault: Option<int>, t: nat)
    requires Inv(s) && Allowed(s, DoSpawnIdle(fault)) && |s.threads| <= t
    ensures CallsOf(SpawnIdle(s, fault).s, t) == []
  {
    if s.idle.None? {
      var r := CreateThread(s, 1, true, fault);
      var w := Wake(r.s.(idle := Some(r.reply.id)), r.reply.id);
      var k := WithStatus(w, w.current, Terminated);
      ScheduleSame(k, Terminated);
      assert t < |k.threads| ==> SameThread(k.threads[t], Schedule(k, Terminated).s.threads[t]);
    }
  }

  /** One step moves the queue of t along. */
  lemma CallsMove(s: State, op: Op, t: nat)
    requires Inv(s) && Allowed(s, op)
    ensures CallsOf(s, t) + Made(s, op, t) == TakenBy(s, op, t) + CallsOf(Step(s, op).s, t)
  {
    if t < |s.threads| { ToldStep(s, op, t); } else { NewThreadsIdle(s, op, t); }
  }

  lemma CallsMoveAt(ops: seq<Op>, states: seq<State>, t: nat, i: nat)
    requires RunOf(ops, states) && i < |ops|
    ensures Queued(states, t)(i) + AllMade(ops, states, t)(i) == AllTaken(ops, states, t)(i) + Queued(states, t)(i + 1)
  {
    RunSafe(ops, states, i);
    assert StepAt(ops, states, i);
    CallsMove(states[i], ops[i], t);
  }

  lemma NoCallsAtFirst(ops: seq<Op>, states: seq<State>, t: nat)
    requires RunOf(ops, states)
    ensures Queued(states, t)(0) == []
  {
  }

  /** Every call made to t is taken by t in the order made, or is still queued in that order. */
  lemma CallsFifo(ops: seq<Op>, states: seq<State>, t: nat, i: nat)
    requires RunOf(ops, states) && i <= |ops|
    ensures Total(AllMade(ops, states, t), i) == Total(AllTaken(ops, states, t), i) + Queued(states, t)(i)
  {
    NoCallsAtFirst(ops, states, t);
    forall k: nat | k < i ensures Queued(states, t)(k) + AllMade(ops, states, t)(k) == AllTaken(ops, states, t)(k) + Queued(states, t)(k + 1) {
      CallsMoveAt(ops, states, t, k);
    }
    Balance(AllMade(ops, states, t), AllTaken(ops, states, t), Queued(states, t), i);
  }

  lemma AnswerStays(s: State, op: Op, c: nat)
    requires Inv(s) && Allowed(s, op) && c < |s.threads| && c != s.current
    requires s.threads[c].wait.InCall? && s.threads[c].ret != EPENDING
    ensures var r := Step(s, op).s;
      c < |r.threads| && r.threads[c].wait == s.threads[c].wait && r.threads[c].ret == s.threads[c].ret
  {
    ToldStep(s, op, c);
    if op.DoReturn? && op.rpc.callee == s.current { InService(s, op.rpc.caller); }
  }

  /** The answer waits for its caller. */
  lemma {:induction false} AnswerWaits(ops: seq<Op>, states: seq<State>, c: nat, i: nat, j: nat)
    requires RunOf(ops, states) && i <= j <= |ops|
    requires c < |states[i].threads| && states[i].threads[c].wait.InCall? && states[i].threads[c].ret != EPENDING
    requires forall k | i <= k < j :: states[k].current != c
    ensures c < |states[j].threads| && states[j].threads[c].wait.InCall? && states[j].threads[c].ret == states[i].threads[c].ret
  {
    if i < j {
      AnswerWaits(ops, states, c, i, j - 1);
      RunSafe(ops, states, j - 1);
      assert StepAt(ops, states, j - 1);
      AnswerStays(states[j - 1], ops[j - 1], c);
    }
  }

  /** A successful return leaves its code with the caller, who is not the one running. */
  lemma Answered(s: State, op: Op)
    requires Inv(s) && Allowed(s, op) && op.DoReturn? && Step(s, op).reply == Ret(ESUCCESS)
    ensures var c, r := op.rpc.caller, Step(s, op).s;
      c != s.current && c < |r.threads| && r.threads[c].wait.InCall? && r.threads[c].ret == op.code && op.code != EPENDING
  {
    InService(s, op.rpc.caller);
    ToldStep(s, op, op.rpc.caller);
  }

  /** A caller that runs with an answer finishes its call with it. */
  lemma AnswerTaken(s: State, op: Op)
    requires Inv(s) && Allowed(s, op) && s.threads[s.current].wait.InCall?
    ensures op == DoResume && Step(s, op).reply == Answer(s.threads[s.current].ret)
  {
    ToldStep(s, op, s.current);
  }

  /**
   A return code reaches the caller that made the call: when the caller next runs, its call ends
   with that very code.
   */
  lemma ReturnCodeReaches(ops: seq<Op>, states: seq<State>, i: nat, j: nat)
    requires RunOf(ops, states) && i < j < |ops| && Shape(states[i]) && InPool(ops[i])
    requires ops[i].DoReturn? && Step(states[i], ops[i]).reply == Ret(ESUCCESS)
    requires (forall k | i < k < j :: states[k].current != ops[i].rpc.caller) && states[j].current == ops[i].rpc.caller
    ensures ops[j] == DoResume && Shape(states[j]) && Step(states[j], ops[j]).reply == Answer(ops[i].code)
  {
    RunSafe(ops, states, i);
    assert StepAt(ops, states, i);
    Answered(states[i], ops[i]);
    AnswerWaits(ops, states, ops[i].rpc.caller, i + 1, j);
    RunSafe(ops, states, j);
    assert StepAt(ops, states, j);
    AnswerTaken(states[j], ops[j]);
  }

  // ---------- sleeping over runs ----------

  /** The threads of some requests that go to ready queue p, in order. */
  function WokenTo(due: seq<Request>, threads: seq<Thread>, p: nat): seq<nat> {
    if due == [] then []
    else (if due[0].thread < |threads| && threads[due[0].thread].priority == p then [due[0].thread] else []) + WokenTo(due[1..], threads, p)
  }

  lemma {:induction false} WokenToSame(due: seq<Request>, a: seq<Thread>, b: seq<Thread>, p: nat)
    requires |a| == |b| && forall t | 0 <= t < |a| :: a[t].priority == b[t].priority
    ensures WokenTo(due, a, p) == WokenTo(due, b, p)
  {
    if due != [] { WokenToSame(due[1..], a, b, p); }
  }

  lemma FirstWoken(s: State, p: nat)
    requires Shape(s) && |s.sleepers| > 0 && p < QUEUES
    ensures var r, t := WakeFirst(s), s.sleepers[0].thread;
      && |r.threads| == |s.threads| && (forall u | 0 <= u < |s.threads| :: r.threads[u].priority == s.threads[u].priority)
      && r.ready[p] == s.ready[p] + (if s.threads[t].priority == p then [t] else [])
  {
  }

  /** The earliest request is the first of those a tick takes out. */
  lemma WokenFirst(x: Request, due: seq<Request>, threads: seq<Thread>, p: nat, queue: seq<nat>)
    requires x.thread < |threads|
    ensures queue + WokenTo([x] + due, threads, p)
            == queue + (if threads[x.thread].priority == p then [x.thread] else []) + WokenTo(due, threads, p)
  {
    assert ([x] + due)[1..] == due;
  }

  lemma OneRound(s: State, now: nat, p: nat)
    requires Core(s, true) && p < QUEUES && |s.sleepers| > 0 && s.sleepers[0].time <= now
    ensures var r := WakeFirst(s);
      && Core(r, true) && r.sleepers == Pop(s.sleepers) && WakeSleepers(s, now) == WakeSleepers(r, now)
      && |r.threads| == |s.threads| && (forall u | 0 <= u < |s.threads| :: r.threads[u].priority == s.threads[u].priority)
      && s.sleepers[0].thread < |s.threads|
      && r.ready[p] == s.ready[p] + (if s.threads[s.sleepers[0].thread].priority == p then [s.sleepers[0].thread] else [])
  {
    PopKeeps(s.sleepers);
    WakeFirstKeeps(s, true);
    FirstSleeper(s);
    FirstWoken(s, p);
  }

  /** A tick wakes the due sleepers in order: each joins the end of its queue, no other queue changes. */
  lemma {:induction false} TickQueues(s: State, now: nat, p: nat)
    requires Core(s, true) && p < QUEUES
    ensures var (due, rest) := Due(s.sleepers, now);
      WakeSleepers(s, now).sleepers == rest && WakeSleepers(s, now).ready[p] == s.ready[p] + WokenTo(due, s.threads, p)
    decreases |s.sleepers|
  {
    if |s.sleepers| > 0 && s.sleepers[0].time <= now {
      PopKeeps(s.sleepers);
      OneRound(s, now, p);
      var r := WakeFirst(s);
      TickQueues(r, now, p);
      var due := Due(r.sleepers, now).0;
      WokenToSame(due, s.threads, r.threads, p);
      WokenFirst(s.sleepers[0], due, s.threads, p, s.ready[p]);
    }
  }

  /** A tick wakes exactly the threads that sleep until now or earlier. */
  lemma {:induction false} TickWakes(s: State, now: nat, t: nat)
    requires Core(s, true) && t < |s.threads|
    ensures |WakeSleepers(s, now).threads| == |s.threads|
    ensures var r := WakeSleepers(s, now);
      r.threads[t] == if Is(s, t, IdleSleep) && s.threads[t].wait.InSleep? && s.threads[t].wait.time <= now
                         then s.threads[t].(status := Ready, home := s.threads[t].priority) else s.threads[t]
    decreases |s.sleepers|
  {
    if |s.sleepers| > 0 && s.sleepers[0].time <= now {
      PopKeeps(s.sleepers);
      WakeFirstKeeps(s, true);
      SleeperLeaves(s, true);
      FirstSleeper(s);
      TickWakes(WakeFirst(s), now, t);
    } else if Is(s, t, IdleSleep) {
      NoneDue(s, now, t);
    }
  }

  /** When the root is not due, no sleeper is. */
  lemma NoneDue(s: State, now: nat, t: nat)
    requires Core(s, true) && Is(s, t, IdleSleep) && !(|s.sleepers| > 0 && s.sleepers[0].time <= now)
    ensures s.threads[t].wait.InSleep? && s.threads[t].wait.time > now
  {
    assert Settled(s, t);
    var x := Request(t, s.threads[t].wait.time);
    assert multiset(s.sleepers)[x] == 1;
    assert x in s.sleepers;
    EarliestOf(s.sleepers);
  }

  lemma FirstSleeper(s: State)
    requires Asleep(s) && |s.sleepers| > 0
    ensures Is(s, s.sleepers[0].thread, IdleSleep) && s.threads[s.sleepers[0].thread].wait == InSleep(s.sleepers[0].time)
  {
    var x := s.sleepers[0];
    assert x == Request(x.thread, x.time) && multiset(s.sleepers)[x] > 0;
  }

  lemma ScheduleHeap(s: State, st: Status)
    requires Shape(s)
    ensures Schedule(s, st).s.sleepers == s.sleepers
  {
  }

  /** No step but a tick takes a request out of the heap. */
  lemma HeapGrows(s: State, op: Op, x: Request)
    requires Inv(s) && Allowed(s, op) && !op.DoTick?
    ensures multiset(s.sleepers)[x] <= multiset(Step(s, op).s.sleepers)[x]
  {
    if op.DoSleepUntil? {
      PushKeeps(s.sleepers, Request(s.current, op.time));
      ScheduleHeap(AddSleeper(s, op.time), IdleSleep);
    } else if op.DoLock? || op.DoListen? || op.DoKill? || op.DoSleep? {
      HeapSwitch(s, op);
    } else {
      HeapSame(s, op);
    }
  }

  lemma HeapSwitch(s: State, op: Op)
    requires Inv(s) && Allowed(s, op) && (op.DoLock? || op.DoListen? || op.DoKill? || op.DoSleep?)
    ensures Step(s, op).s.sleepers == s.sleepers
  {
    match op
    case DoLock(m) => ScheduleHeap(Enqueue(s, m), IdleMutex);
    case DoListen => ScheduleHeap(Put(s, s.current, s.threads[s.current].(wait := InListen)), IdleCallee);
    case DoKill => ScheduleHeap(WithStatus(s, s.current, Terminated), Terminated);
    case DoSleep => ScheduleHeap(s, Idle);
  }

  lemma HeapSame(s: State, op: Op)
    requires Inv(s) && Allowed(s, op)
    requires !op.DoTick? && !op.DoSleepUntil? && !op.DoLock? && !op.DoListen? && !op.DoKill? && !op.DoSleep?
    ensures Step(s, op).s.sleepers == s.sleepers
  {
    match op
    case DoSpawnIdle(fault) => SpawnHeap(s, fault);
    case DoCall(callee, command, buffers, ok) => CallHeap(s, callee, command, buffers, ok);
    case DoResume => ResumeReplies(s);
    case _ =>
  }

  lemma SpawnHeap(s: State, fault: Option<int>)
    requires Shape(s)
    ensures SpawnIdle(s, fault).s.sleepers == s.sleepers
  {
    var r := CreateThread(s, 1, true, fault);
    if s.idle.None? && r.reply.Id? {
      var w := Wake(r.s.(idle := Some(r.reply.id)), r.reply.id);
      ScheduleHeap(WithStatus(w, w.current, Terminated), Terminated);
    }
  }

  lemma CallHeap(s: State, callee: nat, command: nat, buffers: nat, ok: bool)
    requires Shape(s)
    ensures RpcCall(s, callee, command, buffers, ok).s.sleepers == s.sleepers
  {
    if callee < |s.threads| && ok {
      var s1 := Queue(s, callee, Rpc(s.current, callee, command, buffers));
      ScheduleHeap(AwaitReturn(s1, callee), IdleCaller);
      ScheduleHeap(AwaitReturn(Wake(WithStatus(s1, callee, Idle), callee), callee), IdleCaller);
    }
  }

  /** A sleeper sleeps on until a tick at its time or later. */
  lemma SleeperStays(s: State, op: Op, t: nat, time: nat)
    requires Inv(s) && Allowed(s, op) && Is(s, t, IdleSleep) && s.threads[t].wait == InSleep(time)
    requires op.DoTick? ==> op.now < time
    ensures var r := Step(s, op).s; Is(r, t, IdleSleep) && r.threads[t].wait == InSleep(time)
  {
    var r, x := Step(s, op).s, Request(t, time);
    StepSafe(s, op);
    assert multiset(s.sleepers)[x] == 1;
    if op.DoTick? {
      TickQueues(s, op.now, 0);
      DueExact(s.sleepers, op.now);
      var (due, rest) := Due(s.sleepers, op.now);
      assert x !in due;
      assert multiset(due)[x] == 0;
    } else {
      HeapGrows(s, op, x);
    }
    assert multiset(r.sleepers)[x] == One(Is(r, t, IdleSleep) && r.threads[t].wait == InSleep(time));
  }

  /** Over a run: a thread asleep until some time is still asleep as long as no tick has reached that time. */
  lemma {:induction false} SleepsUntil(ops: seq<Op>, states: seq<State>, t: nat, time: nat, i: nat, j: nat)
    requires RunOf(ops, states) && i <= j <= |ops|
    requires Is(states[i], t, IdleSleep) && states[i].threads[t].wait == InSleep(time)
    requires forall k | i <= k < j && ops[k].DoTick? :: ops[k].now < time
    ensures Is(states[j], t, IdleSleep) && states[j].threads[t].wait == InSleep(time)
  {
    if i < j {
      SleepsUntil(ops, states, t, time, i, j - 1);
      RunSafe(ops, states, j - 1);
      assert StepAt(ops, states, j - 1);
      SleeperStays(states[j - 1], ops[j - 1], t, time);
    }
  }

  /** Clock readings in nanoseconds, one at the start of each step and one at the end, and what the steps make of them. */
  ghost predicate Timed(ops: seq<Op>, clock: seq<nat>) {
    && |clock| == |ops| + 1 && (forall i, j | 0 <= i <= j < |clock| :: clock[i] <= clock[j])
    && forall k | 0 <= k < |ops| ::
         && (ops[k].DoTick? ==> ops[k].now == Timer.NowMs(clock[k]))
         && (ops[k].DoSleepUntil? ==> clock[k] <= ops[k].ns <= clock[k + 1])
  }

  /** A thread that goes to sleep is in the heap with its wake-up time. */
  lemma FallsAsleep(s: State, time: nat, ns: nat)
    requires Inv(s) && Allowed(s, DoSleepUntil(time, ns)) && ns < time * Timer.NS_PER_MS
    ensures var r := SleepUntil(s, time, ns).s; Is(r, s.current, IdleSleep) && r.threads[s.current].wait == InSleep(time)
  {
    SleepUntilSafe(s, time, ns);
    PushKeeps(s.sleepers, Request(s.current, time));
    ScheduleHeap(AddSleeper(s, time), IdleSleep);
    SleepersFit(s);
    var r := SleepUntil(s, time, ns).s;
    assert multiset(r.sleepers)[Request(s.current, time)] > 0;
    assert Asleep(r);
  }

  lemma FallsAsleepAt(ops: seq<Op>, states: seq<State>, i: nat)
    requires RunOf(ops, states) && i < |ops| && ops[i].DoSleepUntil? && ops[i].ns < ops[i].time * Timer.NS_PER_MS
    ensures Is(states[i + 1], states[i].current, IdleSleep) && states[i + 1].threads[states[i].current].wait == InSleep(ops[i].time)
  {
    RunSafe(ops, states, i);
    assert StepAt(ops, states, i);
    FallsAsleep(states[i], ops[i].time, ops[i].ns);
  }

  lemma NotAsleep(ops: seq<Op>, states: seq<State>, j: nat)
    requires RunOf(ops, states) && j <= |ops|
    ensures !Is(states[j], states[j].current, IdleSleep)
  {
    RunSafe(ops, states, j);
  }

  /**
   kmt_sleep_for, whole: a thread that asks at `start` to sleep for a number of milliseconds does not
   run again before they are over, provided the wake-up time fits 32 bits.
   */
  lemma SleepForLasts(ops: seq<Op>, states: seq<State>, clock: seq<nat>, i: nat, j: nat, start: nat, duration: nat)
    requires RunOf(ops, states) && Timed(ops, clock) && i < j <= |ops| && states[j].current == states[i].current
    requires ops[i].DoSleepUntil? && ops[i].time == Timer.WakeTime(start, duration) && start <= ops[i].ns
    requires Timer.Ceil(start) + duration < Timer.MS_WRAP
    ensures clock[j] >= start + duration * Timer.NS_PER_MS
  {
    var t, time := states[i].current, ops[i].time;
    Timer.WakeTimeIsLate(start, duration);
    assert ops[i].ns <= clock[i + 1] <= clock[j];
    if ops[i].ns < time * Timer.NS_PER_MS {
      FallsAsleepAt(ops, states, i);
      NotAsleep(ops, states, j);
      if forall k | i < k < j && ops[k].DoTick? :: ops[k].now < time {
        SleepsUntil(ops, states, t, time, i + 1, j);
      } else {
        var k :| i < k < j && ops[k].DoTick? && ops[k].now >= time;
        Timer.NowIsPast(clock[k], time);
        assert clock[k] <= clock[j];
      }
    }
  }

  // ---------- who runs next ----------

  /** No ready queue of s has lost a thread in r, or changed its order. */
  ghost predicate Longer(s: State, r: State) {
    |s.ready| == |r.ready| == QUEUES && forall q: nat | q < QUEUES :: s.ready[q] <= r.ready[q]
  }

  /**
   The thread that runs in r comes from queue p: the threads ready in s kept their order, with the new
   ones behind them, no higher queue has a thread, and the first of queue p was taken.
   */
  ghost predicate RunsFrom(s: State, r: State, p: nat) {
    && p < QUEUES == |s.ready| == |r.ready|
    && s.ready[p] <= [r.current] + r.ready[p]
    && (forall q | p < q < QUEUES :: s.ready[q] == [] && r.ready[q] == [])
    && (forall q | 0 <= q < p :: s.ready[q] <= r.ready[q])
  }

  lemma RetireLonger(s: State, st: Status)
    requires Shape(s)
    ensures Longer(s, Retire(s, st))
  {
  }

  lemma PickedFrom(s: State, mid: State, st: Status)
    requires Shape(mid) && Longer(s, mid) && Schedule(mid, st).reply == Switched && Mapped(Schedule(mid, st).s)
    ensures exists p: nat :: RunsFrom(s, Schedule(mid, st).s, p)
  {
    var ret, r := Retire(mid, st), Schedule(mid, st).s;
    var p := BitLen(ret.bitmap) - 1;
    RetireLonger(mid, st);
    HighestBit(ret.bitmap);
    assert ret.ready[p] == [r.current] + r.ready[p];
    forall q | p < q < QUEUES ensures r.ready[q] == [] && ret.ready[q] == [] {
      BitOfClear(ret.bitmap, p, q);
      assert Bit(r.bitmap, q) <==> r.ready[q] != [];
    }
    assert RunsFrom(s, r, p);
  }

  lemma TickLonger(s: State, now: nat)
    requires Core(s, true)
    ensures Longer(s, WakeSleepers(s, now))
  {
    forall q: nat | q < QUEUES ensures s.ready[q] <= WakeSleepers(s, now).ready[q] { TickQueues(s, now, q); }
  }

  /** The state in which a call that switches asks the scheduler. */
  function Asking(s: State, op: Op): (r: (State, Status))
    requires Shape(s) && InPool(op)
    ensures Shape(r.0)
  {
    var c := s.current;
    match op
    case DoSleepUntil(time, ns) => (AddSleeper(s, time), IdleSleep)
    case DoKill => (WithStatus(s, c, Terminated), Terminated)
    case DoTick(now) => (WakeSleepers(s, now), Ready)
    case DoSpawnIdle(fault) =>
      var r := CreateThread(s, 1, true, fault);
      if r.reply.Id? then
        var w := Wake(r.s.(idle := Some(r.reply.id)), r.reply.id);
        (WithStatus(w, w.current, Terminated), Terminated)
      else (s, Idle)
    case DoLock(m) => (Enqueue(s, m), IdleMutex)
    case DoCall(callee, command, buffers, ok) =>
      if callee >= |s.threads| then (s, Idle)
      else
        var s1 := Queue(s, callee, Rpc(c, callee, command, buffers));
        var first := s.threads[callee].calls == [] && s.threads[callee].status == IdleCallee;
        (AwaitReturn(if first then Wake(WithStatus(s1, callee, Idle), callee) else s1, callee), IdleCaller)
    case DoListen => (Put(s, c, s.threads[c].(wait := InListen)), IdleCallee)
    case _ => (s, Idle)
  }

  lemma AskingSame(s: State, op: Op)
    requires Shape(s) && InPool(op) && !op.DoTick? && !op.DoCall? && !op.DoSpawnIdle?
    ensures Asking(s, op).0.ready == s.ready
  {
  }

  lemma CallingLonger(s: State, op: Op)
    requires Shape(s) && InPool(op) && op.DoCall?
    ensures Longer(s, Asking(s, op).0)
  {
  }

  lemma SpawningLonger(s: State, op: Op)
    requires Shape(s) && InPool(op) && op.DoSpawnIdle?
    ensures Longer(s, Asking(s, op).0)
  {
  }

  lemma AskingLonger(s: State, op: Op)
    requires Inv(s) && InPool(op)
    ensures Longer(s, Asking(s, op).0)
  {
    if op.DoTick? { TickLonger(s, op.now); }
    else if op.DoCall? { CallingLonger(s, op); }
    else if op.DoSpawnIdle? { SpawningLonger(s, op); }
    else { AskingSame(s, op); }
  }

  lemma AsksFor(s: State, op: Op)
    requires Inv(s) && Allowed(s, op) && Step(s, op).reply == Switched
    ensures Schedule(Asking(s, op).0, Asking(s, op).1) == Step(s, op)
  {
    if op.DoResume? { ResumeSafe(s); }
    else if op.DoCall? { CallAsks(s, op); }
    else if op.DoSpawnIdle? { SpawnAsks(s, op); }
    else { OtherAsks(s, op); }
  }

  lemma CallAsks(s: State, op: Op)
    requires Shape(s) && InPool(op) && op.DoCall? && Step(s, op).reply == Switched
    ensures Schedule(Asking(s, op).0, Asking(s, op).1) == Step(s, op)
  {
  }

  lemma SpawnAsks(s: State, op: Op)
    requires Shape(s) && InPool(op) && op.DoSpawnIdle? && Step(s, op).reply == Switched
    ensures Schedule(Asking(s, op).0, Asking(s, op).1) == Step(s, op)
  {
  }

  lemma OtherAsks(s: State, op: Op)
    requires Shape(s) && InPool(op) && !op.DoCall? && !op.DoSpawnIdle? && !op.DoResume? && Step(s, op).reply == Switched
    ensures Schedule(Asking(s, op).0, Asking(s, op).1) == Step(s, op)
  {
  }

  /** One call that switches. */
  lemma SwitchFrom(s: State, op: Op)
    requires Inv(s) && Allowed(s, op) && Step(s, op).reply == Switched
    ensures exists p: nat :: RunsFrom(s, Step(s, op).s, p)
  {
    StepSafe(s, op);
    AskingLonger(s, op);
    AsksFor(s, op);
    PickedFrom(s, Asking(s, op).0, Asking(s, op).1);
  }

  /**
   Over every run: when a call switches, the thread that runs next is the oldest of the highest ready
   queue that has one, and a thread that was not ready before runs only if no ready one is in that queue
   or above.
   */
  lemma SwitchRunsHighest(ops: seq<Op>, states: seq<State>, i: nat)
    requires RunOf(ops, states) && i < |ops| && Shape(states[i]) && InPool(ops[i]) && Step(states[i], ops[i]).reply == Switched
    ensures HighestRuns(states[i], states[i + 1])
  {
    RunSafe(ops, states, i);
    RunSafe(ops, states, i + 1);
    assert StepAt(ops, states, i);
    SwitchFrom(states[i], ops[i]);
    var p: nat :| RunsFrom(states[i], states[i + 1], p);
    OldestRuns(states[i], states[i + 1], p);
  }

  /** Moreover it was first in queue p, or the queue was empty and it was not ready before. */
  ghost predicate RunsOldest(s: State, r: State, p: nat) {
    RunsFrom(s, r, p) && if s.ready[p] == [] then !Is(s, r.current, Ready) else r.current == s.ready[p][0]
  }

  ghost predicate HighestRuns(s: State, r: State) {
    exists p: nat :: RunsOldest(s, r, p)
  }

  lemma OldestRuns(s: State, r: State, p: nat)
    requires Inv(s) && Inv(r) && RunsFrom(s, r, p)
    ensures RunsOldest(s, r, p)
  {
    var t := r.current;
    if s.ready[p] != [] {
      assert s.ready[p][0] == ([t] + r.ready[p])[0];
    } else {
      forall h | 0 <= h < QUEUES ensures Count(s.ready[h], t) == 0 {
        assert Count(r.ready[h], t) == One(Is(r, t, Ready) && r.threads[t].home == h);
        CountPrefix(s.ready[h], r.ready[h], t);
      }
      NotReady(s, t);
    }
  }

  lemma CountPrefix(a: seq<nat>, b: seq<nat>, t: nat)
    requires a <= b
    ensures Count(a, t) <= Count(b, t)
  {
    assert b == a + b[|a|..];
  }

  /** A thread in no ready queue is not ready. */
  lemma NotReady(s: State, t: nat)
    requires Readied(s) && forall h | 0 <= h < QUEUES :: Count(s.ready[h], t) == 0
    ensures !Is(s, t, Ready)
  {
    var h := if Is(s, t, Ready) then s.threads[t].home else 0;
    assert Count(s.ready[h], t) == One(Is(s, t, Ready) && s.threads[t].home == h);
  }

  // ---------- exactly when it goes wrong ----------

  /** An external wake-up keeps the invariant exactly when it does not hit a blocked thread. */
  lemma WakeupExact(s: State, t: nat)
    requires Inv(s)
    ensures Inv(WakeupThread(s, t).s) <==> !Blocked(s, t)
  {
    var r := WakeupThread(s, t).s;
    if Blocked(s, t) {
      var th := s.threads[t];
      assert Settled(s, t);
      assert r.threads[t] == th.(status := Ready, home := th.priority);
      assert Settled(r, t) ==> th.status == IdleSleep;
      if th.status == IdleSleep { StillInHeap(s, r, t, th.wait.time); }
    } else {
      WakeupSafe(s, t);
    }
  }

  /** The request of a sleeper woken from outside is still in the heap. */
  lemma StillInHeap(s: State, r: State, t: nat, time: nat)
    requires Asleep(s) && Is(s, t, IdleSleep) && s.threads[t].wait == InSleep(time)
    requires r.sleepers == s.sleepers && Is(r, t, Ready)
    ensures !Asleep(r)
  {
    assert multiset(r.sleepers)[Request(t, time)] == 1;
  }

  /** No waiter is ever terminated, so the loop the comment describes takes one round and the one written never ends well. */
  lemma {:induction false} WaitersAlive(s: State, m: nat, k: nat)
    requires Core(s, true) && m < KMT_MAX_MUTEXES && k <= |s.mutexes[m].waiting|
    ensures FirstDead(s, s.mutexes[m].waiting, k) == |s.mutexes[m].waiting|
    ensures FirstAlive(s, s.mutexes[m].waiting, k) == k
    decreases |s.mutexes[m].waiting| - k
  {
    var q := s.mutexes[m].waiting;
    if k < |q| {
      assert q[k] in multiset(q) && Count(q, q[k]) > 0;
      assert Count(q, q[k]) == One(Is(s, q[k], IdleMutex) && s.threads[q[k]].wait == InLock(m));
      WaitersAlive(s, m, k + 1);
    }
  }

  /** kmt_unlock_mutex as written follows a null pointer exactly when its owner unlocks a mutex with waiters. */
  lemma UnlockAsWrittenExact(s: State, m: nat)
    requires Inv(s) && m < KMT_MAX_MUTEXES && s.threads[s.current].wait == NoWait
    ensures UnlockAsWritten(s, m).reply == Halted <==> s.mutexes[m].owner == Some(s.current) && s.mutexes[m].waiting != []
    ensures UnlockAsWritten(s, m).reply != Halted ==> UnlockAsWritten(s, m) == UnlockMutex(s, m)
  {
    var q := s.mutexes[m].waiting;
    assert Sound(s, s.mutexes[m]);
    WaitersAlive(s, m, 0);
    UnlockSafe(s, m);
  }

  /** The panic of kmt_rpc_call: the callee is terminated and no call is queued with it. */
  lemma CallPanicExact(s: State, callee: nat, command: nat, buffers: nat)
    requires Inv(s) && CanBlock(s) && callee < |s.threads|
    ensures RpcCall(s, callee, command, buffers, true).reply == Halted <==> CallsTheDead(s, callee)
  {
    if !CallsTheDead(s, callee) { CallSafe(s, callee, command, buffers, true); }
  }

  /** The panic of kmt_rpc_return: the named caller is not waiting for an answer from anyone. */
  lemma ReturnPanicExact(s: State, rpc: Rpc, code: int)
    requires Inv(s) && rpc.caller < |s.threads| && rpc.callee == s.current && code != EPENDING
    ensures RpcReturn(s, rpc, true, true, code).reply == Halted <==>
      forall t: nat | t < |s.threads| :: From(s.threads[t].calls, rpc.caller) + s.threads[t].serving[rpc.caller] == 0
  {
    var c := rpc.caller;
    assert Settled(s, c);
    forall t: nat | t < |s.threads|
      ensures From(s.threads[t].calls, c) + s.threads[t].serving[c] == One(Is(s, c, IdleCaller) && s.threads[c].wait == InCall(t)) {}
  }
}
