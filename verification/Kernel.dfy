/**
 The multitasking kernel as it keeps its state: pools and queues changed in place by every call.
 Each method is proved to do exactly what its function in module Threads says, panics included; after
 a panic nothing is said of the state.
 */
module Kernel {
  import opened Bits
  import opened Options
  import opened SleepHeap
  import opened Threads
  import Lists = Queue
  import Timer

  /** g_kmt_ctx. The wait lists of mutexes and the call queues are sequences. */
  class Kmt {
    const tcbPool: array<Thread>
    var threadCount: nat
    var currentThread: nat
    var idleThread: Option<nat>
    const readyQueues: Lists.QueueArray<nat>
    var readyPriorityBitmap: nat
    const mutexPool: array<Mutex>
    var allocMutexCount: nat
    const sleepHeap: array<Request>
    var sleepHeapSize: nat

    ghost predicate Sized()
      reads this, readyQueues, readyQueues.Repr
    {
      && threadCount <= tcbPool.Length == MAX_KERNEL_THREADS
      && mutexPool.Length == KMT_MAX_MUTEXES && sleepHeapSize <= sleepHeap.Length == MAX_KERNEL_THREADS
      && readyQueues.Valid() && |readyQueues.lists| == QUEUES
      && {this as object, tcbPool, mutexPool, sleepHeap, readyQueues} !! readyQueues.Repr
    }

    ghost function View(): State
      requires Sized()
      reads this, tcbPool, readyQueues, readyQueues.Repr, mutexPool, sleepHeap
    {
      State(tcbPool[..threadCount], currentThread, idleThread, readyQueues.lists, readyPriorityBitmap,
            mutexPool[..], allocMutexCount, sleepHeap[..sleepHeapSize])
    }

    ghost predicate Valid()
      reads this, tcbPool, readyQueues, readyQueues.Repr, mutexPool, sleepHeap
    {
      Sized() && Shape(View())
    }

    /** initialize_multitasking */
    constructor ()
      ensures Valid() && fresh(tcbPool) && fresh(readyQueues) && fresh(readyQueues.Repr) && fresh(mutexPool) && fresh(sleepHeap)
      ensures View() == Init()
    {
      var boot := Thread(Running, 0, 0, NoWait, [], 0, 0, multiset{});
      tcbPool := new Thread[MAX_KERNEL_THREADS](_ => boot);
      threadCount, currentThread, idleThread := 1, 0, None;
      readyQueues := new Lists.QueueArray<nat>(QUEUES);
      readyPriorityBitmap := 0;
      mutexPool := new Mutex[KMT_MAX_MUTEXES](_ => Mutex(false, None, []));
      allocMutexCount := 0;
      sleepHeap := new Request[MAX_KERNEL_THREADS](_ => Request(0, 0));
      sleepHeapSize := 0;
    }

    // ---------- single updates ----------

    method SetThread(t: nat, th: Thread)
      requires Sized() && t < threadCount
      modifies tcbPool
      ensures Sized() && View() == Put(old(View()), t, th)
    {
      tcbPool[t] := th;
    }

    method SetMutex(m: nat, x: Mutex)
      requires Sized() && m < KMT_MAX_MUTEXES
      modifies mutexPool
      ensures Sized() && View() == PutMutex(old(View()), m, x)
    {
      mutexPool[m] := x;
    }

    /** kmt_queue_push on a ready queue, and the bitmap bit that goes with it. */
    method PushReady(p: nat, t: nat)
      requires Sized() && p < QUEUES
      modifies readyQueues, readyQueues.Repr, this`readyPriorityBitmap
      ensures fresh(readyQueues.Repr - old(readyQueues.Repr))
      ensures Sized()
      ensures View() == old(View()).(ready := old(View()).ready[p := old(View()).ready[p] + [t]], bitmap := SetBit(old(View()).bitmap, p))
    {
      readyQueues.Push(p, t);
      readyPriorityBitmap := SetBit(readyPriorityBitmap, p);
    }

    /** kmt_queue_pop on a ready queue; the bitmap bit goes with the last node. */
    method PopReady(p: nat) returns (t: Option<nat>)
      requires Sized() && p < QUEUES
      modifies readyQueues, readyQueues.Repr, this`readyPriorityBitmap
      ensures fresh(readyQueues.Repr - old(readyQueues.Repr))
      ensures Sized() && (t.None? <==> old(View()).ready[p] == [])
      ensures t.Some? ==>
        var s, rest := old(View()), old(View()).ready[p][1..];
        && t.value == s.ready[p][0]
        && View() == s.(ready := s.ready[p := rest], bitmap := if rest == [] then ClearBit(s.bitmap, p) else s.bitmap)
    {
      t := readyQueues.Pop(p);
      var empty := readyQueues.IsEmpty(p);
      if empty { readyPriorityBitmap := ClearBit(readyPriorityBitmap, p); }
    }

    // ---------- scheduling ----------

    /** The part of kmt_wakeup_thread that makes a thread ready. */
    method MakeReady(t: nat)
      requires Valid() && t < threadCount
      modifies tcbPool, readyQueues, readyQueues.Repr, this`readyPriorityBitmap
      ensures fresh(readyQueues.Repr - old(readyQueues.Repr))
      ensures Valid() && View() == Wake(old(View()), t)
    {
      var priority := tcbPool[t].priority;
      ghost var s := View();
      assert s.threads[t] == tcbPool[t];
      PushReady(priority, t);
      SetThread(t, tcbPool[t].(status := Ready, home := priority));
    }

    /** kmt_wakeup_thread */
    method WakeupThread(t: nat) returns (err: int)
      requires Valid()
      modifies tcbPool, readyQueues, readyQueues.Repr, this`readyPriorityBitmap
      ensures fresh(readyQueues.Repr - old(readyQueues.Repr))
      ensures Valid() && Res(View(), Ret(err)) == Threads.WakeupThread(old(View()), t)
    {
      if t >= threadCount { return EINVAL; }
      assert View().threads[t] == tcbPool[t];
      if tcbPool[t].status == Ready || tcbPool[t].status == Running { return ESUCCESS; }
      if tcbPool[t].status == Terminated { return ETERMINATED; }
      MakeReady(t);
      err := ESUCCESS;
    }

    /** kmt_schedule, first part. */
    method RetireCurrent(st: Status)
      requires Valid()
      modifies tcbPool, readyQueues, readyQueues.Repr, this`readyPriorityBitmap
      ensures fresh(readyQueues.Repr - old(readyQueues.Repr))
      ensures Valid() && View() == Retire(old(View()), st)
    {
      var th := tcbPool[currentThread];
      assert View().threads[currentThread] == th;
      if th.status != Terminated {
        if st == Ready {
          SetThread(currentThread, th.(status := Idle, priority := th.basePriority));
          MakeReady(currentThread);
        } else {
          SetThread(currentThread, th.(status := st));
        }
      }
    }

    /** kmt_schedule, second part. */
    method RunNext() returns (reply: Reply)
      requires Valid()
      modifies tcbPool, readyQueues, readyQueues.Repr, this`readyPriorityBitmap, this`currentThread
      ensures fresh(readyQueues.Repr - old(readyQueues.Repr))
      ensures Sized()
      ensures match Dispatch(old(View()))
        case None => reply == Halted
        case Some(r) => reply == Switched && View() == r
    {
      ghost var s := View();
      if readyPriorityBitmap == 0 { return Halted; }
      var p := BitLen(readyPriorityBitmap) - 1;
      if p >= QUEUES { return Halted; }
      var popped := PopReady(p);
      if popped.None? { return Halted; }
      var next := popped.value;
      currentThread := next;
      if next >= threadCount || tcbPool[next].status != Ready { return Halted; }
      SetThread(next, tcbPool[next].(status := Running));
      reply := Switched;
    }

    /** kmt_schedule */
    method Schedule(st: Status) returns (reply: Reply)
      requires Valid()
      modifies tcbPool, readyQueues, readyQueues.Repr, this`readyPriorityBitmap, this`currentThread
      ensures fresh(readyQueues.Repr - old(readyQueues.Repr))
      ensures Sized() && reply == Threads.Schedule(old(View()), st).reply
      ensures reply != Halted ==> View() == Threads.Schedule(old(View()), st).s
    {
      RetireCurrent(st);
      reply := RunNext();
    }

    // ---------- sleeping ----------

    /** kmt_sleep */
    method Sleep() returns (reply: Reply)
      requires Valid()
      modifies this, tcbPool, readyQueues, readyQueues.Repr
      ensures fresh(readyQueues.Repr - old(readyQueues.Repr))
      ensures Sized() && reply == Threads.Sleep(old(View())).reply
      ensures reply != Halted ==> View() == Threads.Sleep(old(View())).s
    {
      reply := Schedule(Idle);
    }

    /** kmt_sleep_until; `ns` is what the clock says. */
    method SleepUntil(time: nat, ns: nat) returns (reply: Reply)
      requires Valid()
      modifies this, tcbPool, readyQueues, readyQueues.Repr, sleepHeap
      ensures fresh(readyQueues.Repr - old(readyQueues.Repr))
      ensures Sized() && reply == Threads.SleepUntil(old(View()), time, ns).reply
      ensures reply != Halted ==> View() == Threads.SleepUntil(old(View()), time, ns).s
    {
      if sleepHeapSize >= MAX_KERNEL_THREADS { return Halted; }
      if ns >= time * Timer.NS_PER_MS { return Ret(ESUCCESS); }
      AddRequest(time);
      reply := Schedule(IdleSleep);
    }

    /** kmt_sleep_for; it reads the clock at `start`, and kmt_sleep_until reads it again at `ns`. */
    method SleepFor(duration: nat, start: nat, ns: nat) returns (reply: Reply)
      requires Valid()
      modifies this, tcbPool, readyQueues, readyQueues.Repr, sleepHeap
      ensures fresh(readyQueues.Repr - old(readyQueues.Repr))
      ensures Sized() && reply == Threads.SleepUntil(old(View()), Timer.WakeTime(start, duration), ns).reply
      ensures reply != Halted ==> View() == Threads.SleepUntil(old(View()), Timer.WakeTime(start, duration), ns).s
    {
      reply := SleepUntil(Timer.WakeTime(start, duration), ns);
    }

    method PushSleeper(x: Request)
      requires Sized() && sleepHeapSize < MAX_KERNEL_THREADS
      modifies this`sleepHeapSize, sleepHeap
      ensures Sized() && View() == old(View()).(sleepers := Push(old(View()).sleepers, x))
    {
      ghost var h := sleepHeap[..sleepHeapSize];
      assert |Push(h, x)| == |h| + 1 by { PushSize(h + [x], |h|); }
      PushRequest(sleepHeap, sleepHeapSize, x);
      sleepHeapSize := sleepHeapSize + 1;
    }

    /** The current thread's request goes into the heap. */
    method AddRequest(time: nat)
      requires Valid() && sleepHeapSize < MAX_KERNEL_THREADS
      modifies this`sleepHeapSize, sleepHeap, tcbPool
      ensures Valid() && View() == AddSleeper(old(View()), time)
    {
      ghost var s := View();
      assert s.threads[currentThread] == tcbPool[currentThread];
      PushSleeper(Request(currentThread, time));
      SetThread(currentThread, tcbPool[currentThread].(wait := InSleep(time)));
      assert View() == AddSleeper(s, time);
    }

    /** kmt_kill_current_thread */
    method KillCurrent() returns (reply: Reply)
      requires Valid()
      modifies this, tcbPool, readyQueues, readyQueues.Repr
      ensures fresh(readyQueues.Repr - old(readyQueues.Repr))
      ensures Sized() && reply == Kill(old(View())).reply
      ensures reply != Halted ==> View() == Kill(old(View())).s
    {
      SetThread(currentThread, tcbPool[currentThread].(status := Terminated));
      reply := Schedule(Terminated);
    }

    method PopSleeper() returns (t: nat)
      requires Sized() && sleepHeapSize > 0 && Ordered(View().sleepers)
      modifies this`sleepHeapSize, sleepHeap
      ensures Sized() && t == old(View()).sleepers[0].thread && View() == old(View()).(sleepers := Pop(old(View()).sleepers))
    {
      assert View().sleepers[0] == sleepHeap[0];
      t := sleepHeap[0].thread;
      sleepHeapSize := PopRequest(sleepHeap, sleepHeapSize);
    }

    /** One round of the wake-up loop of the timer handler. */
    method WakeEarliest() returns (err: int)
      requires Valid() && sleepHeapSize > 0
      modifies this, tcbPool, readyQueues, readyQueues.Repr, sleepHeap
      ensures fresh(readyQueues.Repr - old(readyQueues.Repr))
      ensures Valid() && err == ESUCCESS && View() == WakeFirst(old(View()))
    {
      ghost var s := View();
      PopShape(s);
      var t := PopSleeper();
      assert View().threads[t] == tcbPool[t];
      SetThread(t, tcbPool[t].(status := Idle));
      ghost var mid := WithStatus(s, t, Idle).(sleepers := Pop(s.sleepers));
      assert View() == mid;
      assert Threads.WakeupThread(mid, t) == Res(Wake(mid, t), Ret(ESUCCESS));
      err := WakeupThread(t);
    }

    lemma PopShape(s: State)
      requires Shape(s) && |s.sleepers| > 0
      ensures var t := s.sleepers[0].thread; t < |s.threads| && Shape(WithStatus(s, t, Idle).(sleepers := Pop(s.sleepers)))
    {
      PopKeeps(s.sleepers);
      assert s.sleepers[0] in s.sleepers;
      forall r | r in Pop(s.sleepers) ensures r.thread < |s.threads| {
        assert r in multiset(Pop(s.sleepers));
        assert r in multiset(s.sleepers);
      }
    }

    /** kmt_preemptive_intr_handler without the ageing; `now` is the clock in milliseconds. */
    method TimerTick(now: nat) returns (reply: Reply)
      requires Valid()
      modifies this, tcbPool, readyQueues, readyQueues.Repr, sleepHeap
      ensures fresh(readyQueues.Repr - old(readyQueues.Repr))
      ensures Sized() && reply == Tick(old(View()), now).reply
      ensures reply != Halted ==> View() == Tick(old(View()), now).s
    {
      var woken := WakeDue(now);
      if !woken { return Halted; }
      reply := Schedule(Ready);
    }

    /** The wake-up loop. */
    method WakeDue(now: nat) returns (woken: bool)
      requires Valid()
      modifies this, tcbPool, readyQueues, readyQueues.Repr, sleepHeap
      ensures fresh(readyQueues.Repr - old(readyQueues.Repr))
      ensures Valid() && woken && View() == WakeSleepers(old(View()), now)
    {
      ghost var goal := WakeSleepers(View(), now);
      while sleepHeapSize > 0 && sleepHeap[0].time <= now
        invariant Valid() && WakeSleepers(View(), now) == goal && fresh(readyQueues.Repr - old(readyQueues.Repr))
        decreases sleepHeapSize
      {
        WakeStep(now);
        var err := WakeEarliest();
        if err != ESUCCESS { return false; }
      }
      woken := true;
    }

    lemma WakeStep(now: nat)
      requires Valid() && sleepHeapSize > 0 && sleepHeap[0].time <= now
      ensures WakeSleepers(View(), now) == WakeSleepers(WakeFirst(View()), now) && |WakeFirst(View()).sleepers| == sleepHeapSize - 1
    {
      assert View().sleepers[0] == sleepHeap[0];
      PopKeeps(View().sleepers);
    }

    // ---------- threads ----------

    /** kmt_create_thread; `fault` is the error of the rest of the descriptor or of an allocation. */
    method CreateThread(priority: nat, nameFits: bool, fault: Option<int>) returns (reply: Reply)
      requires Valid()
      modifies this`threadCount, tcbPool
      ensures Valid() && Res(View(), reply) == Threads.CreateThread(old(View()), priority, nameFits, fault)
    {
      if threadCount >= MAX_KERNEL_THREADS { return Ret(0x8000 + EPOOLFULL); }
      if !nameFits { return Ret(0x8000 + ESTRTOOBIG); }
      if priority >= QUEUES { return Ret(0x8000 + EINVAL); }
      if fault.Some? { return Ret(0x8000 + fault.value); }
      tcbPool[threadCount] := Thread(Idle, priority, priority, NoWait, [], 0, 0, multiset{});
      reply := Id(threadCount);
      threadCount := threadCount + 1;
    }

    /** kmt_spawn_idle_thread */
    method SpawnIdleThread(fault: Option<int>) returns (reply: Reply)
      requires Valid()
      modifies this, tcbPool, readyQueues, readyQueues.Repr
      ensures fresh(readyQueues.Repr - old(readyQueues.Repr))
      ensures Sized() && reply == SpawnIdle(old(View()), fault).reply
      ensures reply != Halted ==> View() == SpawnIdle(old(View()), fault).s
    {
      if idleThread.Some? { return Ret(ESUCCESS); }
      ghost var made := Threads.CreateThread(View(), 1, true, fault);
      reply := CreateThread(1, true, fault);
      if !reply.Id? { return Halted; }
      idleThread := Some(reply.id);
      ghost var s := made.s.(idle := Some(reply.id));
      assert View() == s && s.threads[reply.id].status == Idle;
      reply := StartIdle(reply.id);
    }

    /** The new idle thread is woken, and the boot thread ends. */
    method StartIdle(t: nat) returns (reply: Reply)
      requires Valid() && t < threadCount && View().threads[t].status == Idle
      modifies this, tcbPool, readyQueues, readyQueues.Repr
      ensures fresh(readyQueues.Repr - old(readyQueues.Repr))
      ensures Sized() && reply == Kill(Wake(old(View()), t)).reply
      ensures reply != Halted ==> View() == Kill(Wake(old(View()), t)).s
    {
      var _ := WakeupThread(t);
      reply := KillCurrent();
    }

    /** kmt_override_thread_priority */
    method OverridePriority(t: nat, priority: nat) returns (err: int)
      requires Valid()
      modifies tcbPool
      ensures Sized() && Res(View(), Ret(err)) == Threads.OverridePriority(old(View()), t, priority)
    {
      if t >= threadCount { return EOUTOFRANGE; }
      SetThread(t, tcbPool[t].(priority := priority));
      err := ESUCCESS;
    }

    // ---------- mutexes ----------

    /** kmt_create_mutex */
    method CreateMutex() returns (reply: Reply)
      requires Valid()
      modifies this`allocMutexCount, mutexPool
      ensures Valid() && Res(View(), reply) == Threads.CreateMutex(old(View()))
    {
      var id := allocMutexCount;
      if allocMutexCount >= KMT_MAX_MUTEXES {
        id := FindFree();
        if id >= KMT_MAX_MUTEXES { return Ret(0x8000 + EPOOLFULL); }
      } else {
        allocMutexCount := allocMutexCount + 1;
      }
      SetMutex(id, Mutex(true, None, []));
      reply := Id(id);
    }

    /** The first free mutex of the pool, or the pool's size. */
    method FindFree() returns (id: nat)
      requires Sized()
      ensures id == FirstFree(View().mutexes, 0)
    {
      id := 0;
      while id < KMT_MAX_MUTEXES && mutexPool[id].used
        invariant id <= KMT_MAX_MUTEXES && FirstFree(View().mutexes, id) == FirstFree(View().mutexes, 0)
      {
        id := id + 1;
      }
    }

    /** kmt_lock_mutex, up to the point where it succeeds or its thread stops running. */
    method LockMutex(m: nat) returns (reply: Reply)
      requires Valid() && m < KMT_MAX_MUTEXES
      modifies this, tcbPool, readyQueues, readyQueues.Repr, mutexPool
      ensures fresh(readyQueues.Repr - old(readyQueues.Repr))
      ensures Sized() && reply == Threads.LockMutex(old(View()), m).reply
      ensures reply != Halted ==> View() == Threads.LockMutex(old(View()), m).s
    {
      ghost var s := View();
      assert s.mutexes[m] == mutexPool[m];
      if !mutexPool[m].used { return Ret(EUSEFREED); }
      if mutexPool[m].owner == Some(currentThread) { return Ret(ESUCCESS); }
      if mutexPool[m].owner == None {
        SetMutex(m, mutexPool[m].(owner := Some(currentThread)));
        return Ret(ESUCCESS);
      }
      assert s.threads[currentThread] == tcbPool[currentThread];
      SetMutex(m, mutexPool[m].(waiting := mutexPool[m].waiting + [currentThread]));
      SetThread(currentThread, tcbPool[currentThread].(wait := InLock(m)));
      assert View() == Enqueue(s, m);
      reply := Schedule(IdleMutex);
    }

    /** Every waiter is a thread. */
    ghost predicate WaitersKnown(m: nat)
      requires Sized() && m < KMT_MAX_MUTEXES
      reads this, readyQueues, readyQueues.Repr, mutexPool
    {
      forall k | 0 <= k < |mutexPool[m].waiting| :: mutexPool[m].waiting[k] < threadCount
    }

    /** The end of kmt_unlock_mutex: the chosen waiter, already unlinked, owns the mutex and is woken. */
    method HandTo(m: nat, next: nat, ghost s: State, ghost k: nat) returns (reply: Reply)
      requires Sized() && Shape(s) && m < KMT_MAX_MUTEXES && k < |s.mutexes[m].waiting|
      requires next == s.mutexes[m].waiting[k] < threadCount
      requires View() == PutMutex(s, m, s.mutexes[m].(waiting := s.mutexes[m].waiting[k + 1..]))
      modifies this, tcbPool, readyQueues, readyQueues.Repr, mutexPool
      ensures fresh(readyQueues.Repr - old(readyQueues.Repr))
      ensures Sized() && reply == Handover(s, m, k).reply && View() == Handover(s, m, k).s
    {
      assert View().threads[next] == tcbPool[next] && View().mutexes[m] == mutexPool[m];
      SetMutex(m, mutexPool[m].(owner := Some(next)));
      SetThread(next, tcbPool[next].(status := Idle));
      assert View() == Release(s, m, k);
      var err := WakeupThread(next);
      reply := Ret(err);
    }

    /** kmt_unlock_mutex with the loop its comment describes. */
    method UnlockMutex(m: nat) returns (reply: Reply)
      requires Valid() && m < KMT_MAX_MUTEXES && WaitersKnown(m)
      modifies this, tcbPool, readyQueues, readyQueues.Repr, mutexPool
      ensures fresh(readyQueues.Repr - old(readyQueues.Repr))
      ensures Sized() && reply == Threads.UnlockMutex(old(View()), m).reply
      ensures reply != Halted ==> View() == Threads.UnlockMutex(old(View()), m).s
    {
      ghost var s := View();
      assert s.mutexes[m] == mutexPool[m];
      if !mutexPool[m].used { return Ret(EUSEFREED); }
      if mutexPool[m].owner != Some(currentThread) { return Ret(ENOTOWNED); }
      if mutexPool[m].waiting == [] {
        SetMutex(m, mutexPool[m].(owner := None));
        return Ret(ESUCCESS);
      }
      var found, next := NextAlive(m, s);
      if !found { return Halted; }
      reply := HandTo(m, next, s, FirstAlive(s, s.mutexes[m].waiting, 0));
    }

    /** kmt_unlock_mutex as it is written. */
    method UnlockMutexAsWritten(m: nat) returns (reply: Reply)
      requires Valid() && m < KMT_MAX_MUTEXES && WaitersKnown(m)
      modifies this, tcbPool, readyQueues, readyQueues.Repr, mutexPool
      ensures fresh(readyQueues.Repr - old(readyQueues.Repr))
      ensures Sized() && reply == UnlockAsWritten(old(View()), m).reply
      ensures reply != Halted ==> View() == UnlockAsWritten(old(View()), m).s
    {
      ghost var s := View();
      assert s.mutexes[m] == mutexPool[m];
      if !mutexPool[m].used { return Ret(EUSEFREED); }
      if mutexPool[m].owner != Some(currentThread) { return Ret(ENOTOWNED); }
      if mutexPool[m].waiting == [] {
        SetMutex(m, mutexPool[m].(owner := None));
        return Ret(ESUCCESS);
      }
      var found, next := NextDead(m, s);
      if !found { return Halted; }
      reply := HandTo(m, next, s, FirstDead(s, s.mutexes[m].waiting, 0));
    }

    /** Waiter k and those before it are off the list. */
    ghost predicate Unlinked(s: State, m: nat, k: nat, next: nat)
      requires Sized()
      reads this, tcbPool, readyQueues, readyQueues.Repr, mutexPool, sleepHeap
    {
      && m < |s.mutexes| && k < |s.mutexes[m].waiting| && next == s.mutexes[m].waiting[k] < threadCount
      && View() == PutMutex(s, m, s.mutexes[m].(waiting := s.mutexes[m].waiting[k + 1..]))
    }

    /** The loop as its comment describes it: waiters are unlinked until one is not terminated. It fails where the code follows a null link. */
    method NextAlive(m: nat, ghost s: State) returns (found: bool, next: nat)
      requires Valid() && m < KMT_MAX_MUTEXES && WaitersKnown(m) && s == View()
      modifies mutexPool
      ensures Sized()
      ensures var q := s.mutexes[m].waiting;
        && (found <==> FirstAlive(s, q, 0) < |q|)
        && (found ==> Unlinked(s, m, FirstAlive(s, q, 0), next))
    {
      ghost var q, k := s.mutexes[m].waiting, 0;
      assert q == mutexPool[m].waiting && q[0..] == q;
      found, next := false, 0;
      assert View() == PutMutex(s, m, s.mutexes[m].(waiting := q[k..]));
      while mutexPool[m].waiting != []
        invariant k <= |q| && mutexPool[m].waiting == q[k..] && Walking(s, m, q, k)
        invariant FirstAlive(s, q, 0) == FirstAlive(s, q, k)
        decreases |q| - k
      {
        var dead;
        next, dead := NextWaiter(m, s, q, k);
        if !dead { return true, next; }
        k := k + 1;
      }
    }

    /** The loop as it is written: waiters are unlinked until one is terminated. It fails where the code follows a null link. */
    method NextDead(m: nat, ghost s: State) returns (found: bool, next: nat)
      requires Valid() && m < KMT_MAX_MUTEXES && WaitersKnown(m) && s == View()
      modifies mutexPool
      ensures Sized()
      ensures var q := s.mutexes[m].waiting;
        && (found <==> FirstDead(s, q, 0) < |q|)
        && (found ==> Unlinked(s, m, FirstDead(s, q, 0), next))
    {
      ghost var q, k := s.mutexes[m].waiting, 0;
      assert q == mutexPool[m].waiting && q[0..] == q;
      found, next := false, 0;
      assert View() == PutMutex(s, m, s.mutexes[m].(waiting := q[k..]));
      while mutexPool[m].waiting != []
        invariant k <= |q| && mutexPool[m].waiting == q[k..] && Walking(s, m, q, k)
        invariant FirstDead(s, q, 0) == FirstDead(s, q, k)
        decreases |q| - k
      {
        var dead;
        next, dead := NextWaiter(m, s, q, k);
        if dead { return true, next; }
        k := k + 1;
      }
    }

    /** The first k of the waiters q are off the list, and nothing else has changed since s. */
    ghost predicate Walking(s: State, m: nat, q: seq<nat>, k: nat)
      reads this, tcbPool, readyQueues, readyQueues.Repr, mutexPool, sleepHeap
    {
      Sized() && m < KMT_MAX_MUTEXES == |s.mutexes| && k <= |q| && WaitersKnown(m) && View() == PutMutex(s, m, s.mutexes[m].(waiting := q[k..]))
    }

    /** One round of either loop: waiter k comes off the list. */
    method NextWaiter(m: nat, ghost s: State, ghost q: seq<nat>, ghost k: nat) returns (next: nat, dead: bool)
      requires m < KMT_MAX_MUTEXES && k < |q| && Walking(s, m, q, k) && Shape(s)
      modifies mutexPool
      ensures Walking(s, m, q, k + 1) && mutexPool[m].waiting == q[k + 1..]
      ensures next == q[k] < |s.threads| && threadCount == old(threadCount) == |s.threads| && (dead <==> s.threads[next].status == Terminated)
    {
      assert View().mutexes[m] == mutexPool[m] && q[k..][1..] == q[k + 1..];
      next := Unlink(m);
      assert View().mutexes[m] == mutexPool[m] && s.threads[next] == tcbPool[next];
      dead := tcbPool[next].status == Terminated;
    }

    /** Take the first waiter off the list. */
    method Unlink(m: nat) returns (next: nat)
      requires Sized() && m < KMT_MAX_MUTEXES && mutexPool[m].waiting != [] && WaitersKnown(m)
      modifies mutexPool
      ensures Sized() && WaitersKnown(m) && next == old(mutexPool[m].waiting)[0] < threadCount
      ensures var x := old(View()).mutexes[m]; x.waiting != [] && View() == PutMutex(old(View()), m, x.(waiting := x.waiting[1..]))
    {
      assert View().mutexes[m] == mutexPool[m];
      next := mutexPool[m].waiting[0];
      SetMutex(m, mutexPool[m].(waiting := mutexPool[m].waiting[1..]));
      assert View().mutexes[m] == mutexPool[m];
    }

    /** kmt_is_mutex_owned */
    method IsMutexOwned(m: nat) returns (owned: bool)
      requires Valid() && m < KMT_MAX_MUTEXES
      ensures owned <==> View().mutexes[m].used && View().mutexes[m].owner == Some(View().current)
    {
      owned := mutexPool[m].used && mutexPool[m].owner == Some(currentThread);
    }

    /** kmt_free_mutex */
    method FreeMutex(m: nat) returns (err: int)
      requires Valid() && m < KMT_MAX_MUTEXES
      modifies mutexPool
      ensures Valid() && Res(View(), Ret(err)) == Threads.FreeMutex(old(View()), m)
    {
      assert View().mutexes[m] == mutexPool[m];
      if !mutexPool[m].used { return EINVAL; }
      if mutexPool[m].owner != None { return EINUSE; }
      SetMutex(m, mutexPool[m].(used := false));
      err := ESUCCESS;
    }

    // ---------- remote procedure calls ----------

    /** kmt_rpc_call, up to the point where its thread stops running. */
    method RpcCall(callee: nat, command: nat, buffers: nat, ok: bool) returns (reply: Reply)
      requires Valid()
      modifies this, tcbPool, readyQueues, readyQueues.Repr
      ensures fresh(readyQueues.Repr - old(readyQueues.Repr))
      ensures Sized() && reply == Threads.RpcCall(old(View()), callee, command, buffers, ok).reply
      ensures reply != Halted ==> View() == Threads.RpcCall(old(View()), callee, command, buffers, ok).s
    {
      if callee >= threadCount { return Ret(EOUTOFRANGE); }
      if !ok { return Ret(EINVPTR); }
      var rpc := Rpc(currentThread, callee, command, buffers);
      var first, status := tcbPool[callee].calls == [], tcbPool[callee].status;
      assert View().threads[callee] == tcbPool[callee];
      QueueCall(callee, rpc);
      if first && status == Terminated { return Halted; }
      reply := BlockOnCall(callee, first && status == IdleCallee);
    }

    /** The end of kmt_rpc_call: the callee is woken if it waits for a first call, and the caller blocks. */
    method BlockOnCall(callee: nat, wake: bool) returns (reply: Reply)
      requires Valid() && callee < threadCount
      modifies this, tcbPool, readyQueues, readyQueues.Repr
      ensures fresh(readyQueues.Repr - old(readyQueues.Repr))
      ensures Sized()
      ensures var s := if wake then Wake(WithStatus(old(View()), callee, Idle), callee) else old(View());
        var r := Threads.Schedule(AwaitReturn(s, callee), IdleCaller);
        reply == r.reply && (reply != Halted ==> View() == r.s)
    {
      if wake { WakeCallee(callee); }
      WaitForAnswer(callee);
      reply := Schedule(IdleCaller);
    }

    /** The call is appended to the callee's queue. */
    method QueueCall(callee: nat, rpc: Rpc)
      requires Valid() && callee < threadCount && rpc.caller < threadCount
      modifies tcbPool
      ensures Valid() && View() == Queue(old(View()), callee, rpc)
    {
      assert View().threads[callee] == tcbPool[callee];
      SetThread(callee, tcbPool[callee].(calls := tcbPool[callee].calls + [rpc]));
    }

    /** A callee that waits for its first call is woken. */
    method WakeCallee(callee: nat)
      requires Valid() && callee < threadCount
      modifies tcbPool, readyQueues, readyQueues.Repr, this`readyPriorityBitmap
      ensures fresh(readyQueues.Repr - old(readyQueues.Repr))
      ensures Valid() && View() == Wake(WithStatus(old(View()), callee, Idle), callee)
    {
      ghost var s := View();
      assert s.threads[callee] == tcbPool[callee];
      SetThread(callee, tcbPool[callee].(status := Idle));
      assert View() == WithStatus(s, callee, Idle);
      var _ := WakeupThread(callee);
    }

    method WaitForAnswer(callee: nat)
      requires Valid()
      modifies tcbPool
      ensures Valid() && View() == AwaitReturn(old(View()), callee)
    {
      ghost var s := View();
      assert s.threads[currentThread] == tcbPool[currentThread];
      SetThread(currentThread, tcbPool[currentThread].(ret := EPENDING, wait := InCall(callee)));
      assert View() == AwaitReturn(s, callee);
    }

    /** The end of kmt_rpc_listen. */
    method TakeCall() returns (reply: Reply)
      requires Valid() && View().threads[currentThread].calls != []
      modifies tcbPool
      ensures Sized() && Res(View(), reply) == Take(old(View()))
    {
      var th := tcbPool[currentThread];
      assert View().threads[currentThread] == th;
      SetThread(currentThread, th.(wait := NoWait, calls := th.calls[1..], serving := th.serving + multiset{th.calls[0].caller}));
      reply := Taken(th.calls[0]);
    }

    /** kmt_rpc_listen, up to the point where it has a call or its thread stops running. */
    method RpcListen() returns (reply: Reply)
      requires Valid()
      modifies this, tcbPool, readyQueues, readyQueues.Repr
      ensures fresh(readyQueues.Repr - old(readyQueues.Repr))
      ensures Sized() && reply == Threads.RpcListen(old(View())).reply
      ensures reply != Halted ==> View() == Threads.RpcListen(old(View())).s
    {
      assert View().threads[currentThread] == tcbPool[currentThread];
      if tcbPool[currentThread].calls == [] {
        SetThread(currentThread, tcbPool[currentThread].(wait := InListen));
        reply := Schedule(IdleCallee);
      } else {
        reply := TakeCall();
      }
    }

    /** kmt_rpc_return */
    method RpcReturn(rpc: Rpc, descOk: bool, buffersOk: bool, code: int) returns (reply: Reply)
      requires Valid()
      modifies this, tcbPool, readyQueues, readyQueues.Repr
      ensures fresh(readyQueues.Repr - old(readyQueues.Repr))
      ensures Sized() && reply == Threads.RpcReturn(old(View()), rpc, descOk, buffersOk, code).reply
      ensures reply != Halted ==> View() == Threads.RpcReturn(old(View()), rpc, descOk, buffersOk, code).s
    {
      ghost var s := View();
      if !descOk { return Ret(EINVPTR); }
      if rpc.caller >= threadCount { return Ret(EOUTOFRANGE); }
      if rpc.callee != currentThread { return Ret(EINVAL); }
      if !buffersOk { return Ret(EINVPTR); }
      if code == EPENDING { return Ret(EINVAL); }
      var caller := rpc.caller;
      assert s.threads[caller] == tcbPool[caller];
      var waits := GiveAnswer(caller, code);
      if !waits { return Halted; }
      var err := WakeupThread(caller);
      reply := Ret(err);
    }

    /** Leave the return code with the caller, which must be waiting for it. */
    method GiveAnswer(caller: nat, code: int) returns (waits: bool)
      requires Valid() && caller < threadCount
      modifies tcbPool
      ensures Sized() && (waits <==> old(View()).threads[caller].status == IdleCaller)
      ensures waits ==> View() == Respond(old(View()), caller, code)
    {
      ghost var s := View();
      assert s.threads[caller] == tcbPool[caller];
      SetThread(caller, tcbPool[caller].(ret := code));
      if tcbPool[caller].status != IdleCaller { return false; }
      SetThread(caller, tcbPool[caller].(status := Idle));
      assert View() == Put(s, caller, s.threads[caller].(ret := code, status := Idle));
      EndService(caller);
      waits := true;
    }

    /** A call is no longer in service; the code keeps no such note. */
    method EndService(caller: nat)
      requires Valid()
      modifies tcbPool
      ensures Valid()
      ensures var th := old(View()).threads[currentThread]; View() == Put(old(View()), currentThread, th.(serving := th.serving - multiset{caller}))
    {
      assert View().threads[currentThread] == tcbPool[currentThread];
      SetThread(currentThread, tcbPool[currentThread].(serving := tcbPool[currentThread].serving - multiset{caller}));
    }

    /** The rest of a blocked call, when its thread runs again. */
    method ResumeCall() returns (reply: Reply)
      requires Valid()
      modifies this, tcbPool, readyQueues, readyQueues.Repr
      ensures fresh(readyQueues.Repr - old(readyQueues.Repr))
      ensures Sized() && reply == Resume(old(View())).reply
      ensures reply != Halted ==> View() == Resume(old(View())).s
    {
      var th := tcbPool[currentThread];
      assert View().threads[currentThread] == th;
      match th.wait
      case NoWait => reply := Ret(ESUCCESS);
      case InSleep(_) => reply := Finish(Ret(ESUCCESS));
      case InLock(m) =>
        assert m < KMT_MAX_MUTEXES ==> View().mutexes[m] == mutexPool[m];
        if m < KMT_MAX_MUTEXES && mutexPool[m].owner == Some(currentThread) {
          reply := Finish(Ret(ESUCCESS));
        } else {
          reply := Schedule(IdleMutex);
        }
      case InCall(_) =>
        if th.ret == EPENDING { reply := Schedule(IdleCaller); } else { reply := Finish(Answer(th.ret)); }
      case InListen =>
        if th.calls == [] { reply := Halted; } else { reply := TakeCall(); }
    }

    /** The call the current thread was in the middle of is over. */
    method Finish(result: Reply) returns (reply: Reply)
      requires Valid()
      modifies tcbPool
      ensures Sized() && reply == result
      ensures View() == Put(old(View()), currentThread, old(View()).threads[currentThread].(wait := NoWait))
    {
      assert View().threads[currentThread] == tcbPool[currentThread];
      SetThread(currentThread, tcbPool[currentThread].(wait := NoWait));
      reply := result;
    }
  }
}
