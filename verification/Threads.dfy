/**
 Kernel multitasking on values: what every call does to the scheduler's state. Calls run with
 preemption off on one CPU, so each is one step; a call that blocks ends in kmt_schedule and is
 carried on by `Resume` once its thread runs again.
 */
module Threads {
  import opened Bits
  import opened Options
  import opened SleepHeap
  import Timer

  const MAX_KERNEL_THREADS: nat := 256
  const KMT_MAX_MUTEXES: nat := 1024
  const QUEUES: nat := 31

  // err_t values
  const ESUCCESS: int := 0x0
  const EPOOLFULL: int := 0x13
  const ESTRTOOBIG: int := 0x14
  const EINVAL: int := 0x23
  const EINVPTR: int := 0x24
  const ETERMINATED: int := 0x40
  const EINUSE: int := 0x41
  const EUSEFREED: int := 0x42
  const ENOTOWNED: int := 0x43
  const EOUTOFRANGE: int := 0x52
  const EPENDING: int := 0x7000_0000

  datatype Status = Terminated | Ready | Running | Idle | IdleSleep | IdleMutex | IdleCallee | IdleCaller

  /** The call a thread that was switched away from is in the middle of. */
  datatype Wait = NoWait | InSleep(time: nat) | InLock(mutex: nat) | InCall(callee: nat) | InListen

  /** thread_rpc_desc_t, its two buffers being one number here. */
  datatype Rpc = Rpc(caller: nat, callee: nat, command: nat, buffers: nat)

  /**
   tcb_t and thread_info_t. Two fields are bookkeeping: `home`, the ready queue the thread was last
   pushed on, and `serving`, the callers whose calls it has taken and not returned yet.
   */
  datatype Thread = Thread(status: Status, priority: nat, basePriority: nat, wait: Wait, calls: seq<Rpc>, ret: int,
                           home: nat, serving: multiset<nat>)

  datatype Mutex = Mutex(used: bool, owner: Option<nat>, waiting: seq<nat>)

  /** g_kmt_ctx */
  datatype State = State(threads: seq<Thread>, current: nat, idle: Option<nat>,
                         ready: seq<seq<nat>>, bitmap: nat,
                         mutexes: seq<Mutex>, mutexCount: nat, sleepers: seq<Request>)

  /** How a call ends: with a result, with another thread running, or in a kernel panic. */
  datatype Reply = Ret(err: int) | Id(id: nat) | Taken(rpc: Rpc) | Answer(code: int) | Switched | Halted

  datatype Res = Res(s: State, reply: Reply)

  /** The sizes of the pools, and indices that stay within them. */
  ghost predicate Shape(s: State) {
    && s.current < |s.threads| <= MAX_KERNEL_THREADS && |s.ready| == QUEUES
    && |s.mutexes| == KMT_MAX_MUTEXES && s.mutexCount <= KMT_MAX_MUTEXES
    && (forall t | 0 <= t < |s.threads| :: s.threads[t].priority < QUEUES && s.threads[t].basePriority < QUEUES)
    && (s.idle.Some? ==> s.idle.value < |s.threads|)
    && (forall r | r in s.sleepers :: r.thread < |s.threads|)
    && Ordered(s.sleepers)
  }

  /** initialize_multitasking: the boot thread runs, everything else is empty. */
  function Init(): State {
    State([Thread(Running, 0, 0, NoWait, [], 0, 0, multiset{})], 0, None,
          seq(QUEUES, _ => []), 0, seq(KMT_MAX_MUTEXES, _ => Mutex(false, None, [])), 0, [])
  }

  function Put(s: State, t: nat, th: Thread): State
    requires t < |s.threads|
  {
    s.(threads := s.threads[t := th])
  }

  function PutMutex(s: State, m: nat, x: Mutex): State
    requires m < |s.mutexes|
  {
    s.(mutexes := s.mutexes[m := x])
  }

  function WithStatus(s: State, t: nat, st: Status): State
    requires t < |s.threads|
  {
    Put(s, t, s.threads[t].(status := st))
  }

  /** The last part of kmt_wakeup_thread: push on the ready queue of its priority. */
  function Wake(s: State, t: nat): State
    requires Shape(s) && t < |s.threads|
    ensures Shape(Wake(s, t))
  {
    var p := s.threads[t].priority;
    Put(s, t, s.threads[t].(status := Ready, home := p)).(ready := s.ready[p := s.ready[p] + [t]], bitmap := SetBit(s.bitmap, p))
  }

  /** kmt_wakeup_thread */
  function WakeupThread(s: State, t: nat): Res
    requires Shape(s)
  {
    if t >= |s.threads| then Res(s, Ret(EINVAL))
    else match s.threads[t].status
      case Ready => Res(s, Ret(ESUCCESS))
      case Running => Res(s, Ret(ESUCCESS))
      case Terminated => Res(s, Ret(ETERMINATED))
      case _ => Res(Wake(s, t), Ret(ESUCCESS))
  }

  /** The first part of kmt_schedule: the current thread gives up the CPU. */
  function Retire(s: State, st: Status): State
    requires Shape(s)
    ensures Shape(Retire(s, st))
  {
    var th := s.threads[s.current];
    if th.status == Terminated then s
    else if st == Ready then Wake(Put(s, s.current, th.(status := Idle, priority := th.basePriority)), s.current)
    else WithStatus(s, s.current, st)
  }

  /** The second part: the oldest thread of the highest queue runs; None is a panic. */
  function Dispatch(s: State): Option<State>
    requires Shape(s)
  {
    if s.bitmap == 0 then None
    else
      var p := BitLen(s.bitmap) - 1;
      if p >= QUEUES || s.ready[p] == [] then None
      else
        var t, rest := s.ready[p][0], s.ready[p][1..];
        if t >= |s.threads| || s.threads[t].status != Ready then None
        else Some(WithStatus(s, t, Running).(
                    current := t, ready := s.ready[p := rest],
                    bitmap := if rest == [] then ClearBit(s.bitmap, p) else s.bitmap))
  }

  /** kmt_schedule */
  function Schedule(s: State, st: Status): Res
    requires Shape(s)
  {
    match Dispatch(Retire(s, st))
    case None => Res(s, Halted)
    case Some(s') => Res(s', Switched)
  }

  /** kmt_sleep */
  function Sleep(s: State): Res
    requires Shape(s)
  {
    Schedule(s, Idle)
  }

  /** kmt_sleep_until; `ns` is the clock as the call reads it. */
  function SleepUntil(s: State, time: nat, ns: nat): Res
    requires Shape(s)
  {
    if |s.sleepers| >= MAX_KERNEL_THREADS then Res(s, Halted)
    else if ns >= time * Timer.NS_PER_MS then Res(s, Ret(ESUCCESS))
    else Schedule(AddSleeper(s, time), IdleSleep)
  }

  function AddSleeper(s: State, time: nat): State
    requires Shape(s)
    ensures Shape(AddSleeper(s, time))
  {
    var x := Request(s.current, time);
    PushKeeps(s.sleepers, x);
    var h := Push(s.sleepers, x);
    assert forall r :: r in h ==> r in multiset(h);
    Put(s, s.current, s.threads[s.current].(wait := InSleep(time))).(sleepers := h)
  }

  /** kmt_kill_current_thread */
  function Kill(s: State): Res
    requires Shape(s)
  {
    Schedule(WithStatus(s, s.current, Terminated), Terminated)
  }

  /** The wake-up loop of the timer handler, at time `now` in milliseconds. */
  function WakeSleepers(s: State, now: nat): (r: State)
    requires Shape(s)
    ensures Shape(r)
    decreases |s.sleepers|
  {
    if |s.sleepers| > 0 && s.sleepers[0].time <= now then
      PopKeeps(s.sleepers);
      WakeSleepers(WakeFirst(s), now)
    else s
  }

  /** One round of it: the earliest sleeper leaves the heap and is woken. */
  function WakeFirst(s: State): (r: State)
    requires Shape(s) && |s.sleepers| > 0
    ensures Shape(r) && r.sleepers == Pop(s.sleepers)
  {
    var t := s.sleepers[0].thread;
    PopKeeps(s.sleepers);
    PopFrom(s.sleepers);
    Wake(WithStatus(s, t, Idle).(sleepers := Pop(s.sleepers)), t)
  }

  /** kmt_preemptive_intr_handler without the ageing of ready threads. */
  function Tick(s: State, now: nat): Res
    requires Shape(s)
  {
    Schedule(WakeSleepers(s, now), Ready)
  }

  /**
   kmt_create_thread; `fault` is the error of the rest of the descriptor or of an allocation, if any.
   Error results carry bit 15.
   */
  function CreateThread(s: State, priority: nat, nameFits: bool, fault: Option<int>): Res
    requires Shape(s)
  {
    if |s.threads| >= MAX_KERNEL_THREADS then Res(s, Ret(0x8000 + EPOOLFULL))
    else if !nameFits then Res(s, Ret(0x8000 + ESTRTOOBIG))
    else if priority >= QUEUES then Res(s, Ret(0x8000 + EINVAL))
    else if fault.Some? then Res(s, Ret(0x8000 + fault.value))
    else
      var th := Thread(Idle, priority, priority, NoWait, [], 0, 0, multiset{});
      Res(s.(threads := s.threads + [th]), Id(|s.threads|))
  }

  /** kmt_spawn_idle_thread: the boot thread makes the idle thread and ends. */
  function SpawnIdle(s: State, fault: Option<int>): Res
    requires Shape(s)
  {
    if s.idle.Some? then Res(s, Ret(ESUCCESS))
    else
      var r := CreateThread(s, 1, true, fault);
      if r.reply.Id? then Kill(Wake(r.s.(idle := Some(r.reply.id)), r.reply.id)) else Res(s, Halted)
  }

  // ---------- mutexes ----------

  /** Index of the first free mutex from i on. */
  function FirstFree(ms: seq<Mutex>, i: nat): nat
    requires i <= |ms|
    ensures i <= FirstFree(ms, i) <= |ms| && (FirstFree(ms, i) < |ms| ==> !ms[FirstFree(ms, i)].used)
    decreases |ms| - i
  {
    if i == |ms| || !ms[i].used then i else FirstFree(ms, i + 1)
  }

  /** kmt_create_mutex: slots are handed out in order, then the freed ones. */
  function CreateMutex(s: State): Res
    requires Shape(s)
  {
    var m := if s.mutexCount < KMT_MAX_MUTEXES then s.mutexCount else FirstFree(s.mutexes, 0);
    if m == KMT_MAX_MUTEXES then Res(s, Ret(0x8000 + EPOOLFULL))
    else
      var count := if s.mutexCount < KMT_MAX_MUTEXES then s.mutexCount + 1 else s.mutexCount;
      Res(PutMutex(s, m, Mutex(true, None, [])).(mutexCount := count), Id(m))
  }

  /** kmt_lock_mutex */
  function LockMutex(s: State, m: nat): Res
    requires Shape(s) && m < KMT_MAX_MUTEXES
  {
    var x := s.mutexes[m];
    if !x.used then Res(s, Ret(EUSEFREED))
    else match x.owner
      case Some(o) => if o == s.current then Res(s, Ret(ESUCCESS)) else Schedule(Enqueue(s, m), IdleMutex)
      case None => Res(PutMutex(s, m, x.(owner := Some(s.current))), Ret(ESUCCESS))
  }

  /** The current thread joins the queue of a mutex. */
  function Enqueue(s: State, m: nat): State
    requires Shape(s) && m < KMT_MAX_MUTEXES
    ensures Shape(Enqueue(s, m))
  {
    var x := s.mutexes[m];
    Put(PutMutex(s, m, x.(waiting := x.waiting + [s.current])), s.current, s.threads[s.current].(wait := InLock(m)))
  }

  /** The first waiter from k on that is not terminated, or the length of the queue. */
  function FirstAlive(s: State, ws: seq<nat>, k: nat): (r: nat)
    requires k <= |ws|
    ensures k <= r <= |ws|
    decreases |ws| - k
  {
    if k < |ws| && ws[k] < |s.threads| && s.threads[ws[k]].status == Terminated then FirstAlive(s, ws, k + 1) else k
  }

  /** kmt_unlock_mutex with the loop its comment describes: terminated waiters are skipped. */
  function UnlockMutex(s: State, m: nat): Res
    requires Shape(s) && m < KMT_MAX_MUTEXES
  {
    var x := s.mutexes[m];
    if !x.used then Res(s, Ret(EUSEFREED))
    else if x.owner != Some(s.current) then Res(s, Ret(ENOTOWNED))
    else if x.waiting == [] then Res(PutMutex(s, m, x.(owner := None)), Ret(ESUCCESS))
    else Handover(s, m, FirstAlive(s, x.waiting, 0))
  }

  /** The mutex goes to waiter k, who is woken; past the last waiter the code follows a null pointer. */
  function Handover(s: State, m: nat, k: nat): Res
    requires Shape(s) && m < KMT_MAX_MUTEXES
  {
    var x := s.mutexes[m];
    if k >= |x.waiting| || x.waiting[k] >= |s.threads| then Res(s, Halted)
    else
      var t := x.waiting[k];
      Res(Wake(Release(s, m, k), t), Ret(ESUCCESS))
  }

  /** Waiter k becomes the owner and leaves the queue with those before it. */
  function Release(s: State, m: nat, k: nat): State
    requires Shape(s) && m < KMT_MAX_MUTEXES && k < |s.mutexes[m].waiting| && s.mutexes[m].waiting[k] < |s.threads|
    ensures Shape(Release(s, m, k))
  {
    var x := s.mutexes[m];
    WithStatus(PutMutex(s, m, x.(owner := Some(x.waiting[k]), waiting := x.waiting[k + 1..])), x.waiting[k], Idle)
  }

  /** The first waiter from k on that is terminated: where the loop ends as it is written. */
  function FirstDead(s: State, ws: seq<nat>, k: nat): (r: nat)
    requires k <= |ws|
    ensures k <= r <= |ws|
    decreases |ws| - k
  {
    if k < |ws| && ws[k] < |s.threads| && s.threads[ws[k]].status != Terminated then FirstDead(s, ws, k + 1) else k
  }

  /** kmt_unlock_mutex as written: the loop runs on while the waiter is not terminated. */
  function UnlockAsWritten(s: State, m: nat): Res
    requires Shape(s) && m < KMT_MAX_MUTEXES
  {
    var x := s.mutexes[m];
    if x.used && x.owner == Some(s.current) && x.waiting != [] then Handover(s, m, FirstDead(s, x.waiting, 0)) else UnlockMutex(s, m)
  }

  /** kmt_free_mutex */
  function FreeMutex(s: State, m: nat): Res
    requires Shape(s) && m < KMT_MAX_MUTEXES
  {
    var x := s.mutexes[m];
    if !x.used then Res(s, Ret(EINVAL))
    else if x.owner.Some? then Res(s, Ret(EINUSE))
    else Res(PutMutex(s, m, x.(used := false)), Ret(ESUCCESS))
  }

  // ---------- remote procedure calls ----------

  /** kmt_rpc_call; `ok` says that the pointers it is given are good. */
  function RpcCall(s: State, callee: nat, command: nat, buffers: nat, ok: bool): Res
    requires Shape(s)
  {
    if callee >= |s.threads| then Res(s, Ret(EOUTOFRANGE))
    else if !ok then Res(s, Ret(EINVPTR))
    else
      var first, st := s.threads[callee].calls == [], s.threads[callee].status;
      var s1 := Queue(s, callee, Rpc(s.current, callee, command, buffers));
      if first && st == Terminated then Res(s, Halted)
      else if first && st == IdleCallee then Schedule(AwaitReturn(Wake(WithStatus(s1, callee, Idle), callee), callee), IdleCaller)
      else Schedule(AwaitReturn(s1, callee), IdleCaller)
  }

  function Queue(s: State, callee: nat, rpc: Rpc): State
    requires Shape(s) && callee < |s.threads|
    ensures Shape(Queue(s, callee, rpc))
  {
    Put(s, callee, s.threads[callee].(calls := s.threads[callee].calls + [rpc]))
  }

  function AwaitReturn(s: State, callee: nat): State
    requires Shape(s)
    ensures Shape(AwaitReturn(s, callee))
  {
    Put(s, s.current, s.threads[s.current].(ret := EPENDING, wait := InCall(callee)))
  }

  /** The second part of kmt_rpc_listen: take the oldest call. */
  function Take(s: State): Res
    requires Shape(s) && s.threads[s.current].calls != []
  {
    var th := s.threads[s.current];
    Res(Put(s, s.current, th.(wait := NoWait, calls := th.calls[1..], serving := th.serving + multiset{th.calls[0].caller})),
        Taken(th.calls[0]))
  }

  /** kmt_rpc_listen */
  function RpcListen(s: State): Res
    requires Shape(s)
  {
    if s.threads[s.current].calls == [] then
      Schedule(Put(s, s.current, s.threads[s.current].(wait := InListen)), IdleCallee)
    else Take(s)
  }

  /** kmt_rpc_return; `descOk` and `buffersOk` say that the pointers it is given and finds are good. */
  function RpcReturn(s: State, rpc: Rpc, descOk: bool, buffersOk: bool, code: int): Res
    requires Shape(s)
  {
    if !descOk then Res(s, Ret(EINVPTR))
    else if rpc.caller >= |s.threads| then Res(s, Ret(EOUTOFRANGE))
    else if rpc.callee != s.current then Res(s, Ret(EINVAL))
    else if !buffersOk then Res(s, Ret(EINVPTR))
    else if code == EPENDING then Res(s, Ret(EINVAL))
    else if s.threads[rpc.caller].status != IdleCaller then Res(s, Halted)
    else Res(Wake(Respond(s, rpc.caller, code), rpc.caller), Ret(ESUCCESS))
  }

  /** The return code is left with the caller, whose call is over. */
  function Respond(s: State, caller: nat, code: int): State
    requires Shape(s) && caller < |s.threads|
    ensures Shape(Respond(s, caller, code))
  {
    var s1 := Put(s, caller, s.threads[caller].(ret := code, status := Idle));
    Put(s1, s.current, s1.threads[s.current].(serving := s1.threads[s.current].serving - multiset{caller}))
  }

  /** kmt_override_thread_priority, which checks the thread and not the priority. */
  function OverridePriority(s: State, t: nat, priority: nat): Res
    requires Shape(s)
  {
    if t >= |s.threads| then Res(s, Ret(EOUTOFRANGE))
    else Res(Put(s, t, s.threads[t].(priority := priority)), Ret(ESUCCESS))
  }

  /** The rest of a blocked call, when its thread runs again. */
  function Resume(s: State): Res
    requires Shape(s)
  {
    var th := s.threads[s.current];
    var over := Put(s, s.current, th.(wait := NoWait));
    match th.wait
    case NoWait => Res(s, Ret(ESUCCESS))
    case InSleep(_) => Res(over, Ret(ESUCCESS))
    case InLock(m) =>
      if m < KMT_MAX_MUTEXES && s.mutexes[m].owner == Some(s.current) then Res(over, Ret(ESUCCESS)) else Schedule(s, IdleMutex)
    case InCall(_) =>
      if th.ret == EPENDING then Schedule(s, IdleCaller) else Res(over, Answer(th.ret))
    case InListen =>
      if th.calls == [] then Res(s, Halted) else Take(s)
  }
}
