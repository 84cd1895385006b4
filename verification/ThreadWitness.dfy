/** A run that leads the thread system to where its calls fail: two threads and a mutex are enough. */
module ThreadWitness {
  import opened Bits
  import opened Options
  import opened SleepHeap
  import opened Threads
  import opened ThreadInv
  import opened ThreadRuns
  import opened ThreadLaws

  function Queues(one: seq<nat>, five: seq<nat>): (r: seq<seq<nat>>)
    ensures |r| == QUEUES && r[1] == one && r[5] == five && forall p | 0 <= p < QUEUES && p != 1 && p != 5 :: r[p] == []
  {
    seq(QUEUES, p => if p == 1 then one else if p == 5 then five else [])
  }

  lemma QueuesUpdate(one: seq<nat>, five: seq<nat>, q: seq<nat>)
    ensures Queues(one, five)[1 := q] == Queues(q, five) && Queues(one, five)[5 := q] == Queues(one, q)
  {
  }

  function Pool(m: Mutex): (r: seq<Mutex>)
    ensures |r| == KMT_MAX_MUTEXES && r[0] == m && forall i | 0 < i < KMT_MAX_MUTEXES :: r[i] == Mutex(false, None, [])
  {
    seq(KMT_MAX_MUTEXES, i => if i == 0 then m else Mutex(false, None, []))
  }

  lemma PoolUpdate(m: Mutex, n: Mutex)
    ensures Pool(m)[0 := n] == Pool(n)
  {
  }

  /** The boot thread, which has ended, the idle thread, and threads of priority 5. */
  const Boot := Thread(Terminated, 0, 0, NoWait, [], 0, 0, multiset{})
  function IdleThread(st: Status): Thread { Thread(st, 1, 1, NoWait, [], 0, 1, multiset{}) }
  function Worker(st: Status, home: nat, wait: Wait): Thread { Thread(st, 5, 5, wait, [], 0, home, multiset{}) }

  /** A moment of the run: threads, who runs, ready queues 1 and 5, the first mutex. */
  function Moment(threads: seq<Thread>, current: nat, one: seq<nat>, five: seq<nat>, bitmap: nat, m: Mutex, count: nat): State {
    State(threads, current, Some(1), Queues(one, five), bitmap, Pool(m), count, [])
  }

  const Unused := Mutex(false, None, [])

  /** The calls of the run. */
  function OpAt(i: nat): Op {
    match i
    case 0 => DoSpawnIdle(None)
    case 1 => DoCreateThread(5, true, None)
    case 2 => DoCreateThread(5, true, None)
    case 3 => DoWakeup(2)
    case 4 => DoWakeup(3)
    case 5 => DoTick(0)
    case 6 => DoCreateMutex
    case 7 => DoLock(0)
    case 8 => DoTick(0)
    case _ => DoLock(0)
  }

  /** Its states. */
  function At(i: nat): State {
    var idle, w := IdleThread(Ready), Worker(Idle, 0, NoWait);
    var ready, runs := Worker(Ready, 5, NoWait), Worker(Running, 5, NoWait);
    match i
    case 0 => Init()
    case 1 => Moment([Boot, IdleThread(Running)], 1, [], [], 0, Unused, 0)
    case 2 => Moment([Boot, IdleThread(Running), w], 1, [], [], 0, Unused, 0)
    case 3 => Moment([Boot, IdleThread(Running), w, w], 1, [], [], 0, Unused, 0)
    case 4 => Moment([Boot, IdleThread(Running), ready, w], 1, [], [2], 32, Unused, 0)
    case 5 => Prepared()
    case 6 => Moment([Boot, idle, runs, ready], 2, [1], [3], 34, Unused, 0)
    case 7 => Moment([Boot, idle, runs, ready], 2, [1], [3], 34, Mutex(true, None, []), 1)
    case 8 => Owned()
    case 9 => Yielded()
    case _ => Waiting()
  }

  /** Both threads are ready. */
  function Prepared(): State {
    Moment([Boot, IdleThread(Running), Worker(Ready, 5, NoWait), Worker(Ready, 5, NoWait)], 1, [], [2, 3], 32, Unused, 0)
  }

  /** Thread 2 owns the mutex, has been preempted, and goes on with thread 3 waiting for it. */
  function Owned(): State {
    Moment([Boot, IdleThread(Ready), Worker(Running, 5, NoWait), Worker(Ready, 5, NoWait)], 2, [1], [3], 34, Mutex(true, Some(2), []), 1)
  }

  function Yielded(): State {
    Moment([Boot, IdleThread(Ready), Worker(Ready, 5, NoWait), Worker(Running, 5, NoWait)], 3, [1], [2], 34, Mutex(true, Some(2), []), 1)
  }

  function Waiting(): State {
    Moment([Boot, IdleThread(Ready), Worker(Running, 5, NoWait), Worker(IdleMutex, 5, InLock(0))], 2, [1], [], 2, Mutex(true, Some(2), [3]), 1)
  }

  function Ops(): (r: seq<Op>)
    ensures |r| == 10 && forall i | 0 <= i < 10 :: r[i] == OpAt(i)
  {
    seq(10, i requires 0 <= i => OpAt(i))
  }

  function Moments(): (r: seq<State>)
    ensures |r| == 11 && forall i | 0 <= i < 11 :: r[i] == At(i)
  {
    seq(11, i requires 0 <= i => At(i))
  }

  /** The bitmaps that occur. */
  lemma Bitmaps()
    ensures SetBit(0, 1) == 2 && SetBit(0, 5) == 32 && SetBit(32, 5) == 32 && SetBit(32, 1) == 34 && SetBit(34, 5) == 34
    ensures ClearBit(2, 1) == 0 && ClearBit(34, 5) == 2 && BitLen(2) == 2 && BitLen(32) == 6 && BitLen(34) == 6
  {
  }

  // ---------- what the pieces of a call do to a moment ----------

  lemma WakeIn(threads: seq<Thread>, c: nat, one: seq<nat>, five: seq<nat>, b: nat, m: Mutex, n: nat, t: nat)
    requires Shape(Moment(threads, c, one, five, b, m, n)) && t < |threads| && threads[t].priority in {1, 5}
    ensures var p := threads[t].priority;
      var woken := threads[t := threads[t].(status := Ready, home := p)];
      Wake(Moment(threads, c, one, five, b, m, n), t) ==
      if p == 1 then Moment(woken, c, one + [t], five, SetBit(b, 1), m, n) else Moment(woken, c, one, five + [t], SetBit(b, 5), m, n)
  {
    QueuesUpdate(one, five, if threads[t].priority == 1 then one + [t] else five + [t]);
  }

  lemma DispatchIn(threads: seq<Thread>, c: nat, one: seq<nat>, five: seq<nat>, b: nat, m: Mutex, n: nat, t: nat, rest: seq<nat>)
    requires Shape(Moment(threads, c, one, five, b, m, n)) && t < |threads| && threads[t].status == Ready
    requires five == [t] + rest && BitLen(b) == 6
    ensures Dispatch(Moment(threads, c, one, five, b, m, n)) ==
      Some(Moment(threads[t := threads[t].(status := Running)], t, one, rest, if rest == [] then ClearBit(b, 5) else b, m, n))
  {
    assert five[1..] == rest;
    QueuesUpdate(one, five, rest);
  }

  /** The timer takes the CPU from thread c, a worker or the idle thread, and gives it to worker t. */
  lemma TickIn(threads: seq<Thread>, c: nat, one: seq<nat>, five: seq<nat>, b: nat, m: Mutex, n: nat, one': seq<nat>, b': nat, t: nat, rest: seq<nat>, after: seq<Thread>)
    requires Shape(Moment(threads, c, one, five, b, m, n)) && threads[c].status == Running && threads[c].priority == threads[c].basePriority
    requires t != c && t < |threads| && threads[t].status == Ready
    requires if threads[c].priority == 1 then one' == one + [c] && b' == SetBit(b, 1) && five == [t] + rest
      else threads[c].priority == 5 && one' == one && b' == SetBit(b, 5) && five + [c] == [t] + rest
    requires BitLen(b') == 6 && rest != []
    requires after == threads[c := threads[c].(status := Ready, home := threads[c].priority)][t := threads[t].(status := Running)]
    ensures Tick(Moment(threads, c, one, five, b, m, n), 0) == Res(Moment(after, t, one', rest, b', m, n), Switched)
  {
    var s, th := Moment(threads, c, one, five, b, m, n), threads[c];
    var off := threads[c := th.(status := Idle)];
    WakeIn(off, c, one, five, b, m, n, c);
    var queued := threads[c := th.(status := Ready, home := th.priority)];
    assert off[c := off[c].(status := Ready, home := th.priority)] == queued;
    DispatchIn(queued, c, one', [t] + rest, b', m, n, t, rest);
  }

  /** Worker c has to wait for the mutex, and the last ready worker t runs. */
  lemma LockIn(threads: seq<Thread>, c: nat, one: seq<nat>, b: nat, m: Mutex, n: nat, t: nat, after: seq<Thread>)
    requires Shape(Moment(threads, c, one, [t], b, m, n)) && threads[c].status == Running
    requires t != c && t < |threads| && threads[t].status == Ready && BitLen(b) == 6
    requires m.used && m.owner.Some? && m.owner.value != c
    requires after == threads[c := threads[c].(status := IdleMutex, wait := InLock(0))][t := threads[t].(status := Running)]
    ensures LockMutex(Moment(threads, c, one, [t], b, m, n), 0) ==
      Res(Moment(after, t, one, [], ClearBit(b, 5), m.(waiting := m.waiting + [c]), n), Switched)
  {
    var waits := m.(waiting := m.waiting + [c]);
    var off := threads[c := threads[c].(status := IdleMutex, wait := InLock(0))];
    PoolUpdate(m, waits);
    assert Retire(Enqueue(Moment(threads, c, one, [t], b, m, n), 0), IdleMutex) == Moment(off, c, one, [t], b, waits, n);
    assert [t] == [t] + [];
    DispatchIn(off, c, one, [t], b, waits, n, t, []);
  }

  lemma DispatchIdle(threads: seq<Thread>, c: nat, m: Mutex, n: nat, t: nat)
    requires Shape(Moment(threads, c, [t], [], 2, m, n)) && t < |threads| && threads[t].status == Ready
    ensures Dispatch(Moment(threads, c, [t], [], 2, m, n)) == Some(Moment(threads[t := threads[t].(status := Running)], t, [], [], 0, m, n))
  {
    Bitmaps();
    QueuesUpdate([t], [], []);
    assert [t][1..] == [];
  }

  // ---------- the run ----------

  /** The boot thread makes the idle thread, before it ends. */
  function Spawned(): State {
    Moment([Thread(Running, 0, 0, NoWait, [], 0, 0, multiset{}), IdleThread(Ready)], 0, [1], [], 2, Unused, 0)
  }

  lemma InitIs()
    ensures Init() == State([Thread(Running, 0, 0, NoWait, [], 0, 0, multiset{})], 0, None, Queues([], []), 0, Pool(Unused), 0, [])
  {
  }

  lemma MakesIdle(boot: Thread, idle: Thread)
    requires boot == Thread(Running, 0, 0, NoWait, [], 0, 0, multiset{}) && idle == Thread(Idle, 1, 1, NoWait, [], 0, 0, multiset{})
    ensures var made := CreateThread(Init(), 1, true, None);
      made.reply == Id(1) && made.s.(idle := Some(1)) == Moment([boot, idle], 0, [], [], 0, Unused, 0)
  {
    InitIs();
    assert [boot] + [idle] == [boot, idle];
  }

  lemma SpawnsIdle()
    ensures var made := CreateThread(Init(), 1, true, None);
      made.reply == Id(1) && Shape(made.s.(idle := Some(1))) && Wake(made.s.(idle := Some(1)), 1) == Spawned()
  {
    var boot, idle := Thread(Running, 0, 0, NoWait, [], 0, 0, multiset{}), Thread(Idle, 1, 1, NoWait, [], 0, 0, multiset{});
    MakesIdle(boot, idle);
    Bitmaps();
    WakeIn([boot, idle], 0, [], [], 0, Unused, 0, 1);
    assert [boot, idle][1 := IdleThread(Ready)] == [boot, IdleThread(Ready)] && [] + [1] == [1];
  }

  lemma IdleStarts()
    ensures Shape(Spawned()) && Kill(Spawned()) == Res(At(1), Switched)
  {
    var threads := [Boot, IdleThread(Ready)];
    var dead := WithStatus(Spawned(), 0, Terminated);
    assert dead.threads == threads;
    assert dead == Moment(threads, 0, [1], [], 2, Unused, 0);
    DispatchIdle(threads, 0, Unused, 0, 1);
    assert threads[1 := IdleThread(Running)] == [Boot, IdleThread(Running)];
  }

  lemma Starts()
    ensures Inv(Init()) && Allowed(Init(), DoSpawnIdle(None)) && Step(Init(), DoSpawnIdle(None)).s == At(1)
  {
    InitInv();
    SpawnsIdle();
    IdleStarts();
  }

  lemma Creates(i: nat)
    requires i in {1, 2} && Shape(At(i))
    ensures Step(At(i), DoCreateThread(5, true, None)).s == At(i + 1)
  {
    assert Step(At(i), DoCreateThread(5, true, None)).s.threads == At(i + 1).threads;
  }

  lemma Wakes(i: nat)
    requires i in {3, 4} && Shape(At(i))
    ensures Step(At(i), DoWakeup(i - 1)).s == At(i + 1)
  {
    var s := At(i);
    Bitmaps();
    WakeIn(s.threads, 1, [], if i == 3 then [] else [2], s.bitmap, Unused, 0, i - 1);
    assert s.threads[i - 1 := Worker(Ready, 5, NoWait)] == At(i + 1).threads && [] + [2] == [2] && [2] + [3] == [2, 3];
  }

  /** The timer takes the CPU from the idle thread. */
  lemma IdleYields()
    requires Shape(Prepared())
    ensures Tick(Prepared(), 0).s ==
      Moment([Boot, IdleThread(Ready), Worker(Running, 5, NoWait), Worker(Ready, 5, NoWait)], 2, [1], [3], 34, Unused, 0)
  {
    var threads := [Boot, IdleThread(Running), Worker(Ready, 5, NoWait), Worker(Ready, 5, NoWait)];
    Bitmaps();
    assert [] + [1] == [1] && [2, 3] == [2] + [3];
    TickIn(threads, 1, [], [2, 3], 32, Unused, 0, [1], 34, 2, [3], [Boot, IdleThread(Ready), Worker(Running, 5, NoWait), Worker(Ready, 5, NoWait)]);
  }

  lemma MakesMutex()
    requires Shape(At(6))
    ensures Step(At(6), DoCreateMutex).s == At(7)
  {
    PoolUpdate(Unused, Mutex(true, None, []));
  }

  lemma Locks()
    requires Shape(At(7))
    ensures Step(At(7), DoLock(0)).s == At(8)
  {
    PoolUpdate(Mutex(true, None, []), Mutex(true, Some(2), []));
  }

  /** The timer takes the CPU from the owner of the mutex. */
  lemma OwnerYields()
    requires Shape(Owned())
    ensures Tick(Owned(), 0).s == Yielded()
  {
    var threads := [Boot, IdleThread(Ready), Worker(Running, 5, NoWait), Worker(Ready, 5, NoWait)];
    Bitmaps();
    assert [3] + [2] == [3, 2];
    TickIn(threads, 2, [1], [3], 34, Mutex(true, Some(2), []), 1, [1], 34, 3, [2],
           [Boot, IdleThread(Ready), Worker(Ready, 5, NoWait), Worker(Running, 5, NoWait)]);
  }

  /** The other thread has to wait for the mutex. */
  lemma Waits()
    requires Shape(Yielded())
    ensures LockMutex(Yielded(), 0).s == Waiting()
  {
    var threads := [Boot, IdleThread(Ready), Worker(Ready, 5, NoWait), Worker(Running, 5, NoWait)];
    Bitmaps();
    assert [] + [3] == [3];
    LockIn(threads, 3, [1], 34, Mutex(true, Some(2), []), 1, 2,
           [Boot, IdleThread(Ready), Worker(Running, 5, NoWait), Worker(IdleMutex, 5, InLock(0))]);
  }

  /** No thread of the run is in the middle of a call until the last moment. */
  lemma MayGoOn(i: nat)
    requires 0 < i < 10
    ensures var s := At(i); s.current < |s.threads| && Allowed(s, OpAt(i))
  {
  }

  lemma Follows(i: nat)
    requires 0 < i < 10 && Shape(At(i))
    ensures InPool(OpAt(i))
    ensures Step(At(i), OpAt(i)).s == At(i + 1)
  {
    if i <= 4 { Prepares(i); } else { Competes(i); }
  }

  /** Two threads are made and woken. */
  lemma Prepares(i: nat)
    requires 0 < i <= 4 && Shape(At(i))
    ensures InPool(OpAt(i))
    ensures Step(At(i), OpAt(i)).s == At(i + 1)
  {
    if i <= 2 { Creates(i); } else { Wakes(i); }
  }

  /** They compete for the mutex. */
  lemma Competes(i: nat)
    requires 5 <= i < 10 && Shape(At(i))
    ensures InPool(OpAt(i))
    ensures Step(At(i), OpAt(i)).s == At(i + 1)
  {
    match i
    case 5 => IdleYields();
    case 6 => MakesMutex();
    case 7 => Locks();
    case 8 => OwnerYields();
    case 9 => Waits();
  }

  lemma Advances(s: State, op: Op, t: State)
    requires Inv(s) && Allowed(s, op) && Step(s, op).s == t
    ensures Inv(t)
  {
    StepSafe(s, op);
  }

  lemma {:induction false} Reached(i: nat)
    requires i <= 10
    ensures Inv(At(i))
  {
    if i == 0 {
      InitInv();
    } else {
      Reached(i - 1);
      Continues(i - 1);
      Advances(At(i - 1), OpAt(i - 1), At(i));
    }
  }

  lemma Continues(i: nat)
    requires i < 10 && Inv(At(i))
    ensures Allowed(At(i), OpAt(i)) && Step(At(i), OpAt(i)).s == At(i + 1)
  {
    if i == 0 {
      Starts();
    } else {
      MayGoOn(i);
      Follows(i);
    }
  }

  lemma IsRun()
    ensures RunOf(Ops(), Moments())
  {
    forall i: nat | i < |Ops()| ensures StepAt(Ops(), Moments(), i) {
      Reached(i);
      Continues(i);
    }
  }

  lemma WaitingReached()
    ensures Inv(Waiting())
  {
    Reached(10);
    assert At(10) == Waiting();
  }

  lemma UnlockFails()
    ensures Shape(Waiting()) && UnlockAsWritten(Waiting(), 0).reply == Halted
  {
    WaitingReached();
    UnlockAsWrittenExact(Waiting(), 0);
  }

  lemma WakeupFails()
    ensures Shape(Waiting()) && WakeupThread(Waiting(), 3).reply == Ret(ESUCCESS) && !Inv(WakeupThread(Waiting(), 3).s)
  {
    WaitingReached();
    WakeupExact(Waiting(), 3);
  }

  lemma CallFails(command: nat, buffers: nat)
    ensures Shape(Waiting()) && RpcCall(Waiting(), 0, command, buffers, true).reply == Halted
  {
    WaitingReached();
    CallPanicExact(Waiting(), 0, command, buffers);
  }

  lemma ReturnFails(command: nat, buffers: nat)
    ensures Shape(Waiting()) && RpcReturn(Waiting(), Rpc(1, 2, command, buffers), true, true, 0).reply == Halted
  {
    WaitingReached();
  }

  /**
   The run is one of those the theorems speak of. At its end thread 2 owns a mutex and thread 3 waits for
   it, and each of four calls goes wrong: the unlock as it is written, waking thread 3 from outside, calling
   the boot thread, which has ended, and returning a call nobody made.
   */
  lemma CallsGoWrong(command: nat, buffers: nat)
    ensures RunOf(Ops(), Moments())
    ensures var s := Waiting();
      && Moments()[10] == s && Shape(s) && s.current == 2 && s.mutexes[0] == Mutex(true, Some(2), [3])
      && UnlockAsWritten(s, 0).reply == Halted
      && WakeupThread(s, 3).reply == Ret(ESUCCESS) && !Inv(WakeupThread(s, 3).s)
      && RpcCall(s, 0, command, buffers, true).reply == Halted
      && RpcReturn(s, Rpc(1, 2, command, buffers), true, true, 0).reply == Halted
  {
    IsRun();
    UnlockFails();
    WakeupFails();
    CallFails(command, buffers);
    ReturnFails(command, buffers);
  }
}
