/**
 The kernel as a whole: lock, unlock, wait, signal, sleep, timer tick, yield, kill and creation as
 atomic steps over one scheduler, any number of mutexes and semaphores, and the list of sleepers.
 */
module Kernel {
  import opened Sequences
  import opened Options
  import opened Threads
  import opened Scheduler
  import Mutex
  import Semaphore
  import Sleep

  type Table = map<Thread, Mutex.Status>

  datatype State = State(
    sched: Sched,
    table: Table,                        // the thread control blocks that are not erased
    mutexes: map<int, Mutex.MutexState>,
    sems: map<int, Semaphore.SemState>,
    sleepers: seq<Sleep.Sleeper>)

  /** Where a thread can stand. */
  datatype Place = InScheduler | OnMutex(id: int) | OnSem(id: int) | Asleep

  function Queue(k: State, p: Place): seq<Thread>
    requires Legal(k.sched)
  {
    match p
    case InScheduler => Runnable(k.sched)
    case OnMutex(id) => if id in k.mutexes then k.mutexes[id].queue else []
    case OnSem(id) => if id in k.sems then k.sems[id].queue else []
    case Asleep => Sleep.Names(k.sleepers)
  }

  ghost predicate Sound(k: State, nice: Niceness) {
    && Inv(k.sched, nice)
    && (forall id :: id in k.mutexes ==> Mutex.Sane(k.mutexes[id]))
    && (forall id :: id in k.sems ==> Semaphore.Orderly(k.sems[id]))
    && Sleep.Timed(k.sleepers)
  }

  predicate IsDead(table: Table, t: Thread) {
    t in table && table[t] == Mutex.Dead
  }

  /** Every queue holds exactly the threads whose home it is, each of them once. */
  ghost predicate AtHome(k: State, home: map<Thread, Place>)
    requires Legal(k.sched)
  {
    && (forall p, t :: t in Queue(k, p) <==> t in home && home[t] == p)
    && (forall p :: NoDuplicates(Queue(k, p)))
  }

  /**
   Every thread that is not erased is in exactly one queue, and no other thread is in any; only the
   idle thread may be in none, and it is never erased. The dead ones are not in the scheduler.
   */
  ghost predicate Located(k: State, home: map<Thread, Place>, nice: Niceness) {
    && Sound(k, nice) && Legal(k.sched) && AtHome(k, home)
    && (forall t :: t in home ==> t in k.table)
    && (forall t :: t in k.table && t != IDLE ==> t in home)
    && (forall t :: t in k.table ==> t in k.sched.queueOf)
    && (forall t :: t in Runnable(k.sched) ==> !IsDead(k.table, t))
    && IDLE in k.table && !IsDead(k.table, IDLE)
  }

  /** The running thread is the idle one or stands in a queue of the scheduler. */
  ghost predicate Running(k: State)
    requires Legal(k.sched)
  {
    k.sched.current.Some? && (k.sched.current.value == IDLE || k.sched.current.value in Runnable(k.sched))
  }

  /** A thread that waits for no mutex, no semaphore and no tick. */
  ghost predicate WaitsNowhere(k: State, c: Thread)
    requires Legal(k.sched)
  {
    forall p :: p != InScheduler ==> c !in Queue(k, p)
  }

  // -------------------------------------------------------------------- steps

  datatype Op =
    | Lock(id: int) | Unlock(id: int) | Wait(id: int) | Signal(id: int)
    | SleepFor(millis: int) | Tick | Yield | Kill(victims: seq<Thread>) | Create(t: Thread)
    | Retire                             // Init leaves its queue, as its first act

  function DeadIn(k: State): set<Thread> {
    Mutex.DeadOnes(k.table)
  }

  function Buried(k: State, taken: seq<Thread>): Table {
    k.table - Mutex.Buried(taken, DeadIn(k))
  }

  function Locked(k: State, c: Thread, id: int, nice: Niceness): State
    requires Inv(k.sched, nice) && c in k.sched.queueOf && id in k.mutexes
  {
    var (m, got) := Mutex.Acquire(k.mutexes[id], c);
    k.(mutexes := k.mutexes[id := m], sched := if got then k.sched else Suspended(k.sched, c, nice))
  }

  function Unlocked(k: State, c: Thread, id: int, nice: Niceness): State
    requires Legal(k.sched) && id in k.mutexes
  {
    var (m, woken) := Mutex.Release(k.mutexes[id], c, DeadIn(k));
    k.(mutexes := k.mutexes[id := m], sched := Woken(k.sched, woken, nice),
       table := Buried(k, Mutex.Taken(k.mutexes[id], c, DeadIn(k))))
  }

  function Waited(k: State, c: Thread, id: int, nice: Niceness): State
    requires Inv(k.sched, nice) && c in k.sched.queueOf && id in k.sems
  {
    var (s, goes) := Semaphore.Wait(k.sems[id], c);
    k.(sems := k.sems[id := s], sched := if goes then k.sched else Suspended(k.sched, c, nice))
  }

  function Signalled(k: State, id: int, nice: Niceness): State
    requires Legal(k.sched) && id in k.sems
  {
    var (s, woken) := Semaphore.Signal(k.sems[id], DeadIn(k));
    k.(sems := k.sems[id := s], sched := Woken(k.sched, woken, nice),
       table := Buried(k, Semaphore.Released(k.sems[id], DeadIn(k))))
  }

  function Slept(k: State, c: Thread, millis: int, nice: Niceness): State
    requires Inv(k.sched, nice) && c in k.sched.queueOf
  {
    k.(sleepers := [Sleep.Sleeper(c, Sleep.Ticks(millis))] + k.sleepers,
       table := k.table[c := Mutex.Sleeping], sched := Suspended(k.sched, c, nice))
  }

  /** The timer interrupt before the scheduler takes over: sleep_update. */
  function Roused(k: State, nice: Niceness): State
    requires Sleep.Welcome(k.sched, Sleep.Alive(Sleep.Due(k.sleepers), k.table), nice)
  {
    var due := Sleep.Due(k.sleepers);
    k.(sleepers := Sleep.Left(k.sleepers), table := Sleep.Roused(k.table, due),
       sched := Sleep.WakeAll(k.sched, Sleep.Alive(due, k.table), nice))
  }

  function Switch(k: State, forced: bool, nice: Niceness): State
    requires Inv(k.sched, nice)
  {
    FlagsKeep(k.sched, forced, nice);
    k.(sched := Switched(if forced then k.sched.(force := true) else k.sched, nice))
  }

  /** killThread without the joins: a queued thread is erased at once, a blocked one is marked dead. */
  function Killed(k: State, t: Thread, nice: Niceness): State
    requires Inv(k.sched, nice) && (t in k.table ==> t in k.sched.queueOf)
  {
    if t !in k.table || k.table[t] == Mutex.Dead then k
    else
      var queued := t in Runnable(k.sched);
      k.(sched := Dequeued(k.sched, t, nice), table := if queued then k.table - {t} else k.table[t := Mutex.Dead])
  }

  function Created(k: State, t: Thread, nice: Niceness): State
    requires Legal(k.sched)
  {
    k.(sched := Enqueued(k.sched, t, nice), table := k.table[t := Mutex.Ready])
  }

  /** scheduler_dequeue_current, called by Init outside every blocking primitive. */
  function Retired(k: State, nice: Niceness): State
    requires Inv(k.sched, nice) && IDLE in k.sched.queueOf
  {
    k.(sched := Dequeued(k.sched, IDLE, nice))
  }

  // ---------------------------------------------------- the three ways to move

  ghost predicate SameElsewhere(k: State, k': State, p: Place)
    requires Legal(k.sched) && Legal(k'.sched)
  {
    forall q :: q != p && q != InScheduler ==> Queue(k', q) == Queue(k, q)
  }

  /** The running thread blocks at p. */
  lemma BlockKeeps(k: State, k': State, p: Place, c: Thread, home: map<Thread, Place>, nice: Niceness)
    requires Located(k, home, nice) && WaitsNowhere(k, c) && c in k.table && p != InScheduler
    requires Sound(k', nice) && c in k.sched.queueOf && k'.sched == Suspended(k.sched, c, nice)
    requires Legal(k'.sched) && SameElsewhere(k, k', p)
    requires Queue(k', p) == Queue(k, p) + [c] || Queue(k', p) == [c] + Queue(k, p)
    requires k'.table.Keys == k.table.Keys && forall t :: IsDead(k'.table, t) <==> IsDead(k.table, t)
    ensures Located(k', home[c := p], nice) && Running(k')
  {
    hide Inv, Queue, Suspended, Runnable, Sound, NoDuplicates;
    var home' := home[c := p];
    SoundQueues(k, nice);
    SoundQueues(k', nice);
    SuspendKeeps(k.sched, c, nice);
    forall q
      ensures NoDuplicates(Queue(k', q))
      ensures forall t :: t in Queue(k', q) <==> t in home' && home'[t] == q
    {
      if q == p {
        assert c !in Queue(k, p) && NoDuplicates(Queue(k, p));
        NoDuplicatesEnds(Queue(k, p), c);
      } else if q != InScheduler {
        assert Queue(k', q) == Queue(k, q);
      } else {
        assert forall t :: t in Queue(k', q) <==> t in Queue(k, q) && t != c;
      }
    }
  }

  /** What a thread may not do: block where it waits already. Only the idle one can run and wait at once. */
  lemma BlockKeepsIff(k: State, k': State, p: Place, c: Thread, home: map<Thread, Place>, nice: Niceness)
    requires Located(k, home, nice) && c in k.table && p != InScheduler
    requires Sound(k', nice) && c in k.sched.queueOf && k'.sched == Suspended(k.sched, c, nice)
    requires Legal(k'.sched) && SameElsewhere(k, k', p)
    requires Queue(k', p) == Queue(k, p) + [c] || Queue(k', p) == [c] + Queue(k, p)
    requires k'.table.Keys == k.table.Keys && forall t :: IsDead(k'.table, t) <==> IsDead(k.table, t)
    ensures (exists home' :: Located(k', home', nice)) <==> WaitsNowhere(k, c)
  {
    hide Inv, Queue, Suspended, Runnable, Sound;
    if WaitsNowhere(k, c) {
      BlockKeeps(k, k', p, c, home, nice);
    } else {
      var q :| q != InScheduler && c in Queue(k, q);
      assert q != p ==> Queue(k', q) == Queue(k, q);
      if q == p { TwiceIsDuplicate(Queue(k, p), c); }
      TwoPlaces(k', p, q, c, nice);
    }
  }

  /** Who is in two queues, or in one of them twice, has no one home. */
  lemma TwoPlaces(k: State, p: Place, q: Place, c: Thread, nice: Niceness)
    requires Legal(k.sched) && c in Queue(k, p)
    requires if q == p then !NoDuplicates(Queue(k, p)) else c in Queue(k, q)
    ensures forall home :: !Located(k, home, nice)
  {
    hide Inv, Queue, Runnable, Sound, NoDuplicates, AtHome;
    forall home
      ensures !Located(k, home, nice)
    {
      HomeIs(k, home, p, c);
      if q != p { HomeIs(k, home, q, c); }
    }
  }

  lemma HomeIs(k: State, home: map<Thread, Place>, p: Place, c: Thread)
    requires Legal(k.sched) && c in Queue(k, p)
    ensures AtHome(k, home) ==> c in home && home[c] == p && NoDuplicates(Queue(k, p))
  {
  }

  lemma TwiceIsDuplicate(q: seq<Thread>, c: Thread)
    requires c in q
    ensures !NoDuplicates(q + [c]) && !NoDuplicates([c] + q)
  {
    var i :| 0 <= i < |q| && q[i] == c;
    var a, b := q + [c], [c] + q;
    assert a[i] == a[|q|] && b[0] == b[i + 1];
  }

  lemma SoundQueues(k: State, nice: Niceness)
    requires Sound(k, nice)
    ensures Inv(k.sched, nice) && Legal(k.sched)
    ensures Queue(k, InScheduler) == Runnable(k.sched) && NoDuplicates(Runnable(k.sched))
  {
    hide Runnable;
  }

  /** Where the threads are after those of `gone` left a queue and those of `woken` entered the scheduler. */
  function Moved(home: map<Thread, Place>, gone: set<Thread>, woken: set<Thread>): map<Thread, Place> {
    map t | t in home && (t !in gone || t in woken) :: if t in woken then InScheduler else home[t]
  }

  /** Waiters leave p: the dead ones are erased, the others are let into the scheduler. */
  lemma WakeKeeps(k: State, k': State, p: Place, gone: set<Thread>, woken: set<Thread>,
                  home: map<Thread, Place>, nice: Niceness)
    requires Located(k, home, nice) && p != InScheduler && Sound(k', nice) && Legal(k'.sched)
    requires SameElsewhere(k, k', p) && NoDuplicates(Queue(k', p))
    requires forall t :: t in Queue(k, p) <==> t in Queue(k', p) || t in gone
    requires forall t :: t in gone ==> t !in Queue(k', p)
    requires forall t :: t in woken <==> t in gone && !IsDead(k.table, t)
    requires forall t :: t in Runnable(k'.sched) <==> t in Runnable(k.sched) || t in woken
    requires forall t :: t in k'.table <==> t in k.table && (t !in gone || t in woken)
    requires forall t :: IsDead(k'.table, t) ==> IsDead(k.table, t)
    requires forall t :: t in k.sched.queueOf ==> t in k'.sched.queueOf
    ensures Located(k', Moved(home, gone, woken), nice)
  {
    hide Inv, Queue, Runnable, Sound, NoDuplicates;
    var home' := Moved(home, gone, woken);
    SoundQueues(k, nice);
    SoundQueues(k', nice);
    forall q
      ensures NoDuplicates(Queue(k', q))
      ensures forall t :: t in Queue(k', q) <==> t in home' && home'[t] == q
    {
      if q != p && q != InScheduler {
        assert Queue(k', q) == Queue(k, q);
      }
    }
  }

  /** The scheduler picks another thread: nobody moves. */
  lemma SwitchKeepsPlaces(k: State, forced: bool, home: map<Thread, Place>, nice: Niceness)
    requires Located(k, home, nice)
    ensures Inv(k.sched, nice)
    ensures var k' := Switch(k, forced, nice); Located(k', home, nice) && Legal(k'.sched) && Running(k')
  {
    hide Inv, Runnable, NoDuplicates, Switch, Queue, Sound, Legal;
    SwitchParts(k, forced, nice);
    var k' := Switch(k, forced, nice);
    SoundQueues(k, nice);
    SoundQueues(k', nice);
    forall q
      ensures NoDuplicates(Queue(k', q))
      ensures forall t :: t in Queue(k', q) <==> t in home && home[t] == q
    {
      assert q != InScheduler ==> Queue(k', q) == Queue(k, q);
    }
  }

  lemma SwitchParts(k: State, forced: bool, nice: Niceness)
    requires Sound(k, nice)
    ensures Inv(k.sched, nice)
    ensures var k' := Switch(k, forced, nice);
            && Sound(k', nice) && Legal(k'.sched) && Legal(k.sched) && SameElsewhere(k, k', InScheduler)
            && k'.table == k.table && k'.sched.queueOf == k.sched.queueOf && Running(k')
            && (forall t :: t in Runnable(k'.sched) <==> t in Runnable(k.sched))
  {
    hide Inv, Runnable, Switched, Sleep.Names, Legal, Mutex.Sane, Semaphore.Orderly, Sleep.Timed;
    var s := if forced then k.sched.(force := true) else k.sched;
    FlagsKeep(k.sched, forced, nice);
    InvLegal(s, nice);
    SwitchKeeps(s, nice);
    InvLegal(k.sched, nice);
    InvLegal(Switched(s, nice), nice);
  }

  // -------------------------------------------------------- the steps one by one

  lemma LocatedParts(k: State, home: map<Thread, Place>, nice: Niceness)
    requires Located(k, home, nice)
    ensures Sound(k, nice) && Inv(k.sched, nice) && Legal(k.sched)
    ensures forall t :: t in Runnable(k.sched) ==> t in k.table && t in k.sched.queueOf && !IsDead(k.table, t)
    ensures forall t :: t in Runnable(k.sched) ==> t in home && home[t] == InScheduler
    ensures forall t :: t in k.table ==> t in k.sched.queueOf
    ensures IDLE in k.table && !IsDead(k.table, IDLE)
  {
    hide Runnable, NoDuplicates, Inv;
    SoundQueues(k, nice);
  }

  /** The running thread is known and alive; unless it is the idle one it waits nowhere. */
  lemma RunningParts(k: State, home: map<Thread, Place>, nice: Niceness)
    requires Located(k, home, nice) && Running(k)
    ensures var c := k.sched.current.value;
            && c in k.table && c in k.sched.queueOf && !IsDead(k.table, c)
            && (c in Runnable(k.sched) ==> WaitsNowhere(k, c))
  {
    hide Inv, Runnable, NoDuplicates, Sound, Queue;
    LocatedParts(k, home, nice);
  }

  /** A step on one mutex, or on one semaphore, changes no other wait queue. */
  lemma MutexQueue(k: State, id: int, m: Mutex.MutexState, s: Sched)
    requires Legal(k.sched) && Legal(s) && id in k.mutexes
    ensures var k' := k.(mutexes := k.mutexes[id := m], sched := s);
            SameElsewhere(k, k', OnMutex(id)) && Queue(k', OnMutex(id)) == m.queue
    ensures Queue(k, OnMutex(id)) == k.mutexes[id].queue
  {
    hide Runnable, Legal, Sleep.Names;
  }

  lemma SemQueue(k: State, id: int, q: Semaphore.SemState, s: Sched)
    requires Legal(k.sched) && Legal(s) && id in k.sems
    ensures var k' := k.(sems := k.sems[id := q], sched := s);
            SameElsewhere(k, k', OnSem(id)) && Queue(k', OnSem(id)) == q.queue
    ensures Queue(k, OnSem(id)) == k.sems[id].queue
  {
    hide Runnable, Legal, Sleep.Names;
  }

  lemma LockedParts(k: State, c: Thread, id: int, nice: Niceness)
    requires Sound(k, nice) && c in k.sched.queueOf && id in k.mutexes
    ensures Inv(k.sched, nice)
    ensures var (k', got) := (Locked(k, c, id, nice), Mutex.Acquire(k.mutexes[id], c).1);
            && Sound(k', nice) && Legal(k.sched) && Legal(k'.sched) && SameElsewhere(k, k', OnMutex(id))
            && k'.table == k.table
            && k'.sched == (if got then k.sched else Suspended(k.sched, c, nice))
            && Queue(k', OnMutex(id)) == Queue(k, OnMutex(id)) + if got then [] else [c]
  {
    hide Inv, Runnable, Suspended, Mutex.Acquire, NoDuplicates, Queue, SameElsewhere, Legal, Mutex.Sane;
    SuspendKeeps(k.sched, c, nice);
    InvLegal(k.sched, nice);
    InvLegal(Suspended(k.sched, c, nice), nice);
    Mutex.AcquireExcludes(k.mutexes[id], c);
    Mutex.NobodyWaits(k.mutexes[id]);
    var k' := Locked(k, c, id, nice);
    MutexQueue(k, id, k'.mutexes[id], k'.sched);
  }

  lemma LockKeeps(k: State, c: Thread, id: int, home: map<Thread, Place>, nice: Niceness)
    requires Located(k, home, nice) && Running(k) && k.sched.current == Some(c) && id in k.mutexes
    requires Mutex.Acquire(k.mutexes[id], c).1 || WaitsNowhere(k, c)
    ensures Inv(k.sched, nice) && c in k.sched.queueOf
    ensures var (k', got) := (Locked(k, c, id, nice), Mutex.Acquire(k.mutexes[id], c).1);
            Located(k', if got then home else home[c := OnMutex(id)], nice) && Legal(k'.sched) && Running(k')
  {
    hide Inv, Runnable, NoDuplicates, Suspended, Mutex.Acquire, Located, Sound, Queue, Locked, WaitsNowhere;
    LocatedParts(k, home, nice);
    RunningParts(k, home, nice);
    LockedParts(k, c, id, nice);
    var k' := Locked(k, c, id, nice);
    if Mutex.Acquire(k.mutexes[id], c).1 {
      SameQueues(k, k', OnMutex(id), home, nice);
    } else {
      BlockKeeps(k, k', OnMutex(id), c, home, nice);
    }
  }

  /** A step that changes neither a queue nor the table moves nobody. */
  lemma SameQueues(k: State, k': State, p: Place, home: map<Thread, Place>, nice: Niceness)
    requires Located(k, home, nice) && Sound(k', nice) && p != InScheduler
    requires k'.sched == k.sched && k'.table == k.table
    requires SameElsewhere(k, k', p) && Queue(k', p) == Queue(k, p)
    ensures Located(k', home, nice)
  {
    hide Inv, Runnable, NoDuplicates, Sound, Queue;
    SoundQueues(k, nice);
    SoundQueues(k', nice);
    forall q
      ensures Queue(k', q) == Queue(k, q)
    {
    }
  }

  lemma WaitedParts(k: State, c: Thread, id: int, nice: Niceness)
    requires Sound(k, nice) && c in k.sched.queueOf && id in k.sems
    ensures Inv(k.sched, nice)
    ensures var (k', goes) := (Waited(k, c, id, nice), Semaphore.Wait(k.sems[id], c).1);
            && Sound(k', nice) && Legal(k.sched) && Legal(k'.sched) && SameElsewhere(k, k', OnSem(id))
            && k'.table == k.table
            && k'.sched == (if goes then k.sched else Suspended(k.sched, c, nice))
            && Queue(k', OnSem(id)) == Queue(k, OnSem(id)) + if goes then [] else [c]
  {
    hide Inv, Runnable, Suspended, Semaphore.Wait, NoDuplicates, Queue, SameElsewhere, Legal, Semaphore.Orderly;
    SuspendKeeps(k.sched, c, nice);
    InvLegal(k.sched, nice);
    InvLegal(Suspended(k.sched, c, nice), nice);
    Semaphore.WaitBlocksAtZero(k.sems[id], c);
    var k' := Waited(k, c, id, nice);
    SemQueue(k, id, k'.sems[id], k'.sched);
  }

  lemma WaitKeeps(k: State, c: Thread, id: int, home: map<Thread, Place>, nice: Niceness)
    requires Located(k, home, nice) && Running(k) && k.sched.current == Some(c) && id in k.sems
    requires Semaphore.Wait(k.sems[id], c).1 || WaitsNowhere(k, c)
    ensures Inv(k.sched, nice) && c in k.sched.queueOf
    ensures var (k', goes) := (Waited(k, c, id, nice), Semaphore.Wait(k.sems[id], c).1);
            Located(k', if goes then home else home[c := OnSem(id)], nice) && Legal(k'.sched) && Running(k')
  {
    hide Inv, Runnable, NoDuplicates, Suspended, Semaphore.Wait, Located, Sound, Queue, Waited, WaitsNowhere;
    LocatedParts(k, home, nice);
    RunningParts(k, home, nice);
    WaitedParts(k, c, id, nice);
    var k' := Waited(k, c, id, nice);
    if Semaphore.Wait(k.sems[id], c).1 {
      SameQueues(k, k', OnSem(id), home, nice);
    } else {
      BlockKeeps(k, k', OnSem(id), c, home, nice);
    }
  }

  lemma SleptParts(k: State, c: Thread, millis: int, nice: Niceness)
    requires Sound(k, nice) && c in k.sched.queueOf && c in k.table && !IsDead(k.table, c)
    ensures Inv(k.sched, nice)
    ensures var k' := Slept(k, c, millis, nice);
            && Sound(k', nice) && Legal(k.sched) && Legal(k'.sched) && SameElsewhere(k, k', Asleep)
            && k'.table.Keys == k.table.Keys && (forall t :: IsDead(k'.table, t) <==> IsDead(k.table, t))
            && k'.sched == Suspended(k.sched, c, nice)
            && Queue(k', Asleep) == [c] + Queue(k, Asleep)
  {
    hide Inv, Runnable, Suspended, NoDuplicates, Sleep.Names, Sleep.Ticks;
    SuspendKeeps(k.sched, c, nice);
    InvLegal(k.sched, nice);
    InvLegal(Suspended(k.sched, c, nice), nice);
    Sleep.TicksAreTheMillis(millis);
    Sleep.NamesCons(Sleep.Sleeper(c, Sleep.Ticks(millis)), k.sleepers);
  }

  lemma SleepKeeps(k: State, c: Thread, millis: int, home: map<Thread, Place>, nice: Niceness)
    requires Located(k, home, nice) && Running(k) && k.sched.current == Some(c) && WaitsNowhere(k, c)
    ensures Inv(k.sched, nice) && c in k.sched.queueOf
    ensures var k' := Slept(k, c, millis, nice);
            Located(k', home[c := Asleep], nice) && Legal(k'.sched) && Running(k')
  {
    hide Inv, Runnable, NoDuplicates, Suspended, Located, Sound, Queue, Slept, WaitsNowhere;
    LocatedParts(k, home, nice);
    RunningParts(k, home, nice);
    SleptParts(k, c, millis, nice);
    BlockKeeps(k, Slept(k, c, millis, nice), Asleep, c, home, nice);
  }

  // ---- waking

  lemma BuriedParts(table: Table, q: seq<Thread>, taken: seq<Thread>, woken: Option<Thread>)
    requires forall t :: t in taken ==> t in q
    requires forall t :: t in q ==> t in table
    requires forall t :: t in taken && woken != Some(t) ==> IsDead(table, t)
    requires woken.Some? ==> woken.value in taken && !IsDead(table, woken.value)
    ensures var after := table - Mutex.Buried(taken, Mutex.DeadOnes(table));
            && (forall t :: t in after <==> t in table && (t !in taken || woken == Some(t)))
            && (forall t :: IsDead(after, t) ==> IsDead(table, t))
  {
  }

  lemma WokenParts(s: Sched, woken: Option<Thread>, nice: Niceness)
    requires Inv(s, nice) && s.current.Some?
    requires woken.Some? ==> woken.value !in Runnable(s)
    ensures Legal(s)
    ensures var s' := Woken(s, woken, nice);
            && Inv(s', nice) && Legal(s') && s'.current == s.current
            && (forall t :: t in Runnable(s') <==> t in Runnable(s) || woken == Some(t))
            && (forall t :: t in s.queueOf ==> t in s'.queueOf)
  {
    hide Inv, Runnable, Enqueued;
    InvLegal(s, nice);
    if woken.Some? {
      EnqueueKeeps(s, woken.value, nice);
      EnqueueLeaves(s, woken.value, nice);
    }
    InvLegal(Woken(s, woken, nice), nice);
  }

  lemma UnlockedParts(k: State, c: Thread, id: int, nice: Niceness)
    requires Sound(k, nice) && k.sched.current.Some? && id in k.mutexes
    requires forall t :: t in k.mutexes[id].queue ==> t in k.table && t !in Runnable(k.sched)
    ensures Legal(k.sched)
    ensures var (k', dead) := (Unlocked(k, c, id, nice), DeadIn(k));
            var (woken, taken) := (Mutex.Release(k.mutexes[id], c, dead).1, Mutex.Taken(k.mutexes[id], c, dead));
            && Sound(k', nice) && Legal(k'.sched) && Handed(k, k', OnMutex(id), taken, woken)
  {
    hide Inv, Runnable, NoDuplicates, Woken, Mutex.Release, Mutex.Taken, Mutex.Buried, Mutex.DeadOnes;
    InvLegal(k.sched, nice);
    var dead, m := DeadIn(k), k.mutexes[id];
    Mutex.ReleaseHandsOver(m, c, dead);
    DeadOnesAre(k.table);
    BuriedParts(k.table, m.queue, Mutex.Taken(m, c, dead), Mutex.Release(m, c, dead).1);
    WokenParts(k.sched, Mutex.Release(m, c, dead).1, nice);
  }

  lemma DeadOnesAre(table: Table)
    ensures forall t :: t in Mutex.DeadOnes(table) <==> IsDead(table, t)
  {
  }

  lemma SignalledParts(k: State, id: int, nice: Niceness)
    requires Sound(k, nice) && k.sched.current.Some? && id in k.sems
    requires forall t :: t in k.sems[id].queue ==> t in k.table && t !in Runnable(k.sched)
    ensures Legal(k.sched)
    ensures var (k', dead) := (Signalled(k, id, nice), DeadIn(k));
            var (woken, taken) := (Semaphore.Signal(k.sems[id], dead).1, Semaphore.Released(k.sems[id], dead));
            && Sound(k', nice) && Legal(k'.sched) && Handed(k, k', OnSem(id), taken, woken)
  {
    hide Inv, Runnable, NoDuplicates, Woken, Semaphore.Signal, Semaphore.Released, Mutex.Buried, Mutex.DeadOnes;
    InvLegal(k.sched, nice);
    var dead, s := DeadIn(k), k.sems[id];
    Semaphore.SignalIsSpentOnce(s, dead);
    DeadOnesAre(k.table);
    BuriedParts(k.table, s.queue, Semaphore.Released(s, dead), Semaphore.Signal(s, dead).1);
    WokenParts(k.sched, Semaphore.Signal(s, dead).1, nice);
  }

  /** The head of queue p left it: one of the threads may have entered the scheduler, the others are erased. */
  ghost predicate Handed(k: State, k': State, p: Place, taken: seq<Thread>, woken: Option<Thread>)
    requires Legal(k.sched) && Legal(k'.sched)
  {
    && SameElsewhere(k, k', p) && Queue(k, p) == taken + Queue(k', p)
    && k'.sched.current == k.sched.current
    && (forall t :: t in taken && woken != Some(t) ==> IsDead(k.table, t))
    && (woken.Some? ==> woken.value in taken && !IsDead(k.table, woken.value))
    && (forall t :: t in Runnable(k'.sched) <==> t in Runnable(k.sched) || woken == Some(t))
    && (forall t :: t in k'.table <==> t in k.table && (t !in taken || woken == Some(t)))
    && (forall t :: IsDead(k'.table, t) ==> IsDead(k.table, t))
    && (forall t :: t in k.sched.queueOf ==> t in k'.sched.queueOf)
  }

  lemma HandedKeeps(k: State, k': State, p: Place, taken: seq<Thread>, woken: Option<Thread>,
                    home: map<Thread, Place>, nice: Niceness)
    requires Located(k, home, nice) && Running(k) && Sound(k', nice) && Legal(k'.sched) && p != InScheduler
    requires Handed(k, k', p, taken, woken)
    ensures Located(k', Moved(home, (set t | t in taken), Just(woken)), nice) && Running(k')
  {
    hide Inv, Runnable, NoDuplicates, Sound, Queue;
    assert NoDuplicates(Queue(k, p));
    NoDuplicatesParts(taken, Queue(k', p));
    WakeKeeps(k, k', p, (set t | t in taken), Just(woken), home, nice);
  }

  /** Those who wait at p are known and not in the scheduler. */
  lemma WaitersKnown(k: State, p: Place, home: map<Thread, Place>, nice: Niceness)
    requires Located(k, home, nice) && p != InScheduler
    ensures forall t :: t in Queue(k, p) ==> t in k.table && t !in Runnable(k.sched)
  {
    hide Inv, Runnable, NoDuplicates, Queue, Sound;
    SoundQueues(k, nice);
    assert forall t :: t in Runnable(k.sched) ==> t in Queue(k, InScheduler);
    assert forall t :: t in Queue(k, p) ==> home[t] == p;
  }

  lemma UnlockKeeps(k: State, c: Thread, id: int, home: map<Thread, Place>, nice: Niceness)
    returns (home': map<Thread, Place>)
    requires Located(k, home, nice) && Running(k) && id in k.mutexes
    ensures var k' := Unlocked(k, c, id, nice); Located(k', home', nice) && Legal(k'.sched) && Running(k')
  {
    hide Inv, Runnable, NoDuplicates, Located, Sound, Unlocked, Handed, Mutex.Release, Mutex.Taken, Mutex.DeadOnes;
    LocatedParts(k, home, nice);
    WaitersKnown(k, OnMutex(id), home, nice);
    UnlockedParts(k, c, id, nice);
    var dead, m := DeadIn(k), k.mutexes[id];
    var taken, woken := Mutex.Taken(m, c, dead), Mutex.Release(m, c, dead).1;
    HandedKeeps(k, Unlocked(k, c, id, nice), OnMutex(id), taken, woken, home, nice);
    home' := Moved(home, (set t | t in taken), Just(woken));
  }

  lemma SignalKeeps(k: State, id: int, home: map<Thread, Place>, nice: Niceness)
    returns (home': map<Thread, Place>)
    requires Located(k, home, nice) && Running(k) && id in k.sems
    ensures var k' := Signalled(k, id, nice); Located(k', home', nice) && Legal(k'.sched) && Running(k')
  {
    hide Inv, Runnable, NoDuplicates, Located, Sound, Signalled, Handed, Semaphore.Signal, Semaphore.Released,
      Mutex.DeadOnes;
    LocatedParts(k, home, nice);
    WaitersKnown(k, OnSem(id), home, nice);
    SignalledParts(k, id, nice);
    var dead, s := DeadIn(k), k.sems[id];
    var taken, woken := Semaphore.Released(s, dead), Semaphore.Signal(s, dead).1;
    HandedKeeps(k, Signalled(k, id, nice), OnSem(id), taken, woken, home, nice);
    home' := Moved(home, (set t | t in taken), Just(woken));
  }

  // ---- the timer

  lemma RousedTable(table: Table, due: seq<Thread>)
    requires forall t :: t in due ==> t in table
    ensures var after := Sleep.Roused(table, due);
            && (forall t :: t in after <==> t in table && (t !in due || !IsDead(table, t)))
            && (forall t :: IsDead(after, t) ==> IsDead(table, t))
  {
  }

  lemma RousedParts(k: State, home: map<Thread, Place>, nice: Niceness)
    requires Located(k, home, nice) && Running(k)
    ensures Sleep.Welcome(k.sched, Sleep.Alive(Sleep.Due(k.sleepers), k.table), nice)
    ensures var k', due := Roused(k, nice), Sleep.Due(k.sleepers);
            && Sound(k', nice) && Legal(k'.sched) && SameElsewhere(k, k', Asleep)
            && NoDuplicates(Queue(k', Asleep)) && k'.sched.current == k.sched.current
            && (forall t :: t in Queue(k, Asleep) <==> t in Queue(k', Asleep) || t in due)
            && (forall t :: t in due ==> t !in Queue(k', Asleep) && t in k.table)
            && k'.table == Sleep.Roused(k.table, due)
            && (forall t :: t in Runnable(k'.sched) <==> t in Runnable(k.sched) || (t in due && !IsDead(k.table, t)))
            && (forall t :: t in k.sched.queueOf ==> t in k'.sched.queueOf)
  {
    hide Inv, Runnable, NoDuplicates, Located, Sleep.Names, Sleep.Left, Sleep.Due, Sleep.WakeAll, Sleep.Roused, Sleep.Alive;
    LocatedParts(k, home, nice);
    WaitersKnown(k, Asleep, home, nice);
    AsleepOnce(k, home, nice);
    var l := k.sleepers;
    Sleep.TickSplits(l);
    Sleep.TickKeepsNames(l);
    Sleep.AliveNoDuplicates(Sleep.Due(l), k.table);
    var woken := Sleep.Alive(Sleep.Due(l), k.table);
    assert Sleep.Welcome(k.sched, woken, nice);
    InvLegal(Sleep.WakeAll(k.sched, woken, nice), nice);
  }

  lemma AsleepOnce(k: State, home: map<Thread, Place>, nice: Niceness)
    requires Located(k, home, nice)
    ensures Legal(k.sched) && Queue(k, Asleep) == Sleep.Names(k.sleepers) && NoDuplicates(Queue(k, Asleep))
  {
    hide Inv, Runnable, Sleep.Names, NoDuplicates;
  }

  lemma TickKeeps(k: State, home: map<Thread, Place>, nice: Niceness) returns (home': map<Thread, Place>)
    requires Located(k, home, nice) && Running(k)
    ensures Sleep.Welcome(k.sched, Sleep.Alive(Sleep.Due(k.sleepers), k.table), nice)
    ensures Inv(Roused(k, nice).sched, nice)
    ensures var k' := Switch(Roused(k, nice), false, nice); Located(k', home', nice) && Legal(k'.sched) && Running(k')
  {
    hide Inv, Runnable, NoDuplicates, Located, Sound, Queue, Roused, Switch, Sleep.Welcome, Sleep.Roused, Sleep.Due;
    RousedParts(k, home, nice);
    var k', due := Roused(k, nice), Sleep.Due(k.sleepers);
    var gone := set t | t in due;
    var woken := set t | t in due && !IsDead(k.table, t);
    RousedTable(k.table, due);
    WakeKeeps(k, k', Asleep, gone, woken, home, nice);
    home' := Moved(home, gone, woken);
    SwitchKeepsPlaces(k', false, home', nice);
  }

  // ---- death and birth

  lemma KillKeeps(k: State, t: Thread, home: map<Thread, Place>, nice: Niceness) returns (home': map<Thread, Place>)
    requires Located(k, home, nice) && t != IDLE
    ensures Inv(k.sched, nice) && (t in k.table ==> t in k.sched.queueOf)
    ensures var k' := Killed(k, t, nice);
            && Located(k', home', nice) && Legal(k'.sched)
            && k'.sched.current == k.sched.current
            && (forall u :: u in Runnable(k.sched) && u != t ==> u in Runnable(k'.sched))
  {
    hide Inv, Runnable, NoDuplicates, Sound, Queue;
    LocatedParts(k, home, nice);
    home' := home;
    if t in k.table && !IsDead(k.table, t) {
      var k' := Killed(k, t, nice);
      KilledParts(k, t, nice);
      SoundQueues(k, nice);
      SoundQueues(k', nice);
      if t in Runnable(k.sched) { home' := home - {t}; }
      forall q
        ensures NoDuplicates(Queue(k', q))
        ensures forall u :: u in Queue(k', q) <==> u in home' && home'[u] == q
      {
        assert q != InScheduler ==> Queue(k', q) == Queue(k, q);
      }
    }
  }

  lemma KilledParts(k: State, t: Thread, nice: Niceness)
    requires Sound(k, nice) && t in k.table && t in k.sched.queueOf && !IsDead(k.table, t)
    ensures Inv(k.sched, nice)
    ensures var k' := Killed(k, t, nice);
            && Sound(k', nice) && Legal(k'.sched) && Legal(k.sched) && SameElsewhere(k, k', InScheduler)
            && k'.sched.current == k.sched.current && k'.sched.queueOf == k.sched.queueOf
            && k'.table == (if t in Runnable(k.sched) then k.table - {t} else k.table[t := Mutex.Dead])
            && (forall u :: u in Runnable(k'.sched) <==> u in Runnable(k.sched) && u != t)
  {
    hide Inv, Runnable, NoDuplicates, Dequeued, Sleep.Names, Legal, Mutex.Sane, Semaphore.Orderly, Sleep.Timed;
    InvLegal(k.sched, nice);
    WhereQueued(k.sched, t, nice);
    DequeueKeeps(k.sched, t, nice);
    DequeueLeaves(k.sched, t, nice);
    InvLegal(Dequeued(k.sched, t, nice), nice);
  }

  /** A list of threads is killed, one by one. */
  ghost predicate KilledAll(k: State, ts: seq<Thread>, k': State, nice: Niceness)
    decreases ts
  {
    if ts == [] then k' == k
    else
      && Inv(k.sched, nice) && (ts[0] in k.table ==> ts[0] in k.sched.queueOf)
      && KilledAll(Killed(k, ts[0], nice), ts[1..], k', nice)
  }

  lemma {:induction false} KillAllKeeps(k: State, ts: seq<Thread>, k': State, home: map<Thread, Place>, nice: Niceness)
    returns (home': map<Thread, Place>)
    requires Located(k, home, nice) && IDLE !in ts && KilledAll(k, ts, k', nice)
    ensures Located(k', home', nice) && Legal(k.sched) && Legal(k'.sched) && k'.sched.current == k.sched.current
    ensures forall u :: u in Runnable(k.sched) && u !in ts ==> u in Runnable(k'.sched)
    decreases ts
  {
    hide Inv, Runnable, Located, Killed;
    LocatedParts(k, home, nice);
    home' := home;
    if ts != [] {
      assert ts[0] in ts && forall u :: u in ts[1..] ==> u in ts;
      home' := KillKeeps(k, ts[0], home, nice);
      home' := KillAllKeeps(Killed(k, ts[0], nice), ts[1..], k', home', nice);
    }
  }

  lemma CreateKeeps(k: State, t: Thread, home: map<Thread, Place>, nice: Niceness)
    requires Located(k, home, nice) && Running(k) && t !in k.table && t != IDLE
    ensures Legal(k.sched)
    ensures var k' := Created(k, t, nice); Located(k', home[t := InScheduler], nice) && Legal(k'.sched) && Running(k')
  {
    hide Inv, Runnable, NoDuplicates, Sound, Queue, Enqueued, Legal;
    SoundQueues(k, nice);
    assert t !in home;
    var k', home' := Created(k, t, nice), home[t := InScheduler];
    CreatedParts(k, t, nice);
    SoundQueues(k', nice);
    forall q
      ensures NoDuplicates(Queue(k', q))
      ensures forall u :: u in Queue(k', q) <==> u in home' && home'[u] == q
    {
      assert q != InScheduler ==> Queue(k', q) == Queue(k, q);
    }
  }

  /** Init leaves its queue and is in none from then on; it still runs whenever no queue holds a thread. */
  lemma RetireKeeps(k: State, home: map<Thread, Place>, nice: Niceness) returns (home': map<Thread, Place>)
    requires Located(k, home, nice) && Running(k) && k.sched.current == Some(IDLE)
    ensures Inv(k.sched, nice) && IDLE in k.sched.queueOf
    ensures var k' := Retired(k, nice);
            && Located(k', home', nice) && Legal(k'.sched) && Running(k') && IDLE !in Runnable(k'.sched)
  {
    hide Inv, Runnable, NoDuplicates, Sound, Queue, Retired;
    LocatedParts(k, home, nice);
    var k' := Retired(k, nice);
    RetiredParts(k, nice);
    SoundQueues(k, nice);
    SoundQueues(k', nice);
    home' := if IDLE in Runnable(k.sched) then home - {IDLE} else home;
    forall q
      ensures NoDuplicates(Queue(k', q))
      ensures forall u :: u in Queue(k', q) <==> u in home' && home'[u] == q
    {
      assert q != InScheduler ==> Queue(k', q) == Queue(k, q);
    }
  }

  lemma RetiredParts(k: State, nice: Niceness)
    requires Sound(k, nice) && IDLE in k.sched.queueOf
    ensures Inv(k.sched, nice)
    ensures var k' := Retired(k, nice);
            && Sound(k', nice) && Legal(k'.sched) && Legal(k.sched) && SameElsewhere(k, k', InScheduler)
            && k'.sched.current == k.sched.current && k'.sched.queueOf == k.sched.queueOf && k'.table == k.table
            && (forall u :: u in Runnable(k'.sched) <==> u in Runnable(k.sched) && u != IDLE)
  {
    hide Inv, Runnable, NoDuplicates, Dequeued, Sleep.Names, Legal, Mutex.Sane, Semaphore.Orderly, Sleep.Timed;
    InvLegal(k.sched, nice);
    WhereQueued(k.sched, IDLE, nice);
    DequeueKeeps(k.sched, IDLE, nice);
    DequeueLeaves(k.sched, IDLE, nice);
    InvLegal(Dequeued(k.sched, IDLE, nice), nice);
  }

  lemma CreatedParts(k: State, t: Thread, nice: Niceness)
    requires Sound(k, nice) && k.sched.current.Some? && Legal(k.sched) && t !in Runnable(k.sched)
    ensures var k' := Created(k, t, nice);
            && Sound(k', nice) && Legal(k'.sched) && SameElsewhere(k, k', InScheduler)
            && k'.sched.current == k.sched.current
            && (forall u :: u in k'.sched.queueOf <==> u in k.sched.queueOf || u == t)
            && (forall u :: u in Runnable(k'.sched) <==> u in Runnable(k.sched) || u == t)
  {
    hide Inv, Runnable, NoDuplicates, Enqueued, Sleep.Names;
    EnqueueKeeps(k.sched, t, nice);
    EnqueueLeaves(k.sched, t, nice);
    InvLegal(Enqueued(k.sched, t, nice), nice);
  }

  // ---------------------------------------------------------------- every run

  /** One atomic step of the kernel on behalf of the running thread, or a timer interrupt. */
  ghost predicate Steps(k: State, op: Op, k': State, nice: Niceness) {
    && Inv(k.sched, nice) && Legal(k.sched) && Running(k)
    && var c := k.sched.current.value;
       match op
       case Lock(id) =>
         && id in k.mutexes && c in k.sched.queueOf && (Mutex.Acquire(k.mutexes[id], c).1 || WaitsNowhere(k, c))
         && k' == Locked(k, c, id, nice)
       case Unlock(id) => id in k.mutexes && k' == Unlocked(k, c, id, nice)
       case Wait(id) =>
         && id in k.sems && c in k.sched.queueOf && (Semaphore.Wait(k.sems[id], c).1 || WaitsNowhere(k, c))
         && k' == Waited(k, c, id, nice)
       case Signal(id) => id in k.sems && k' == Signalled(k, id, nice)
       case SleepFor(millis) => c in k.sched.queueOf && WaitsNowhere(k, c) && k' == Slept(k, c, millis, nice)
       case Tick =>
         && Sleep.Welcome(k.sched, Sleep.Alive(Sleep.Due(k.sleepers), k.table), nice)
         && k' == Switch(Roused(k, nice), false, nice)
       case Yield => k' == Switch(k, true, nice)
       case Kill(victims) =>
         && IDLE !in victims
         && exists dying ::
              && KilledAll(k, victims, dying, nice) && Inv(dying.sched, nice)
              && k' == if c in victims then Switch(dying, true, nice) else dying
       case Create(t) => t !in k.table && t != IDLE && k' == Created(k, t, nice)
       case Retire => c == IDLE && c in k.sched.queueOf && k' == Retired(k, nice)
  }

  lemma StepKeeps(k: State, op: Op, k': State, home: map<Thread, Place>, nice: Niceness)
    returns (home': map<Thread, Place>)
    requires Located(k, home, nice) && Steps(k, op, k', nice)
    ensures Located(k', home', nice) && Legal(k'.sched) && Running(k')
  {
    hide Inv, Runnable, NoDuplicates, Located, Locked, Unlocked, Waited, Signalled, Slept, Roused, Switch,
      KilledAll, Created, Retired, Sleep.Welcome, Mutex.Acquire, Semaphore.Wait, WaitsNowhere;
    var c := k.sched.current.value;
    match op {
      case Lock(id) =>
        LockKeeps(k, c, id, home, nice);
        home' := if Mutex.Acquire(k.mutexes[id], c).1 then home else home[c := OnMutex(id)];
      case Unlock(id) => home' := UnlockKeeps(k, c, id, home, nice);
      case Wait(id) =>
        WaitKeeps(k, c, id, home, nice);
        home' := if Semaphore.Wait(k.sems[id], c).1 then home else home[c := OnSem(id)];
      case Signal(id) => home' := SignalKeeps(k, id, home, nice);
      case SleepFor(millis) =>
        SleepKeeps(k, c, millis, home, nice);
        home' := home[c := Asleep];
      case Tick => home' := TickKeeps(k, home, nice);
      case Yield =>
        SwitchKeepsPlaces(k, true, home, nice);
        home' := home;
      case Kill(victims) =>
        var dying :| && KilledAll(k, victims, dying, nice) && Inv(dying.sched, nice)
                     && k' == if c in victims then Switch(dying, true, nice) else dying;
        home' := KillAllKeeps(k, victims, dying, home, nice);
        SwitchKeepsPlaces(dying, true, home', nice);
      case Create(t) =>
        CreateKeeps(k, t, home, nice);
        home' := home[t := InScheduler];
      case Retire => home' := RetireKeeps(k, home, nice);
    }
  }

  /** The kernel when Init has been given the processor for the first time. */
  ghost predicate Booted(k: State, nice: Niceness) {
    && Inv(k.sched, nice) && Legal(k.sched)
    && Runnable(k.sched) == [IDLE] && k.sched.current == Some(IDLE)
    && k.table == map[IDLE := Mutex.Ready] && k.sleepers == []
    && (forall id :: id in k.mutexes ==> k.mutexes[id] == Mutex.UNLOCKED)
    && (forall id :: id in k.sems ==> k.sems[id].value >= 0 && k.sems[id].queue == [])
  }

  /** The kernel around a scheduler, when there is only Init. */
  function Bare(s: Sched): State {
    State(s, map[IDLE := Mutex.Ready], map[], map[], [])
  }

  /** main after scheduler_init: Init is created and takes the processor. */
  method StartInit(sched: KernelScheduler)
    requires sched.Valid() && Runnable(sched.State()) == [] && sched.nice(IDLE) == 0
    modifies sched, sched.priorityLevel, sched.ringLevel
    ensures sched.Valid() && Booted(Bare(sched.State()), sched.nice)
  {
    hide Inv, Runnable, Enqueued, Switched, Booted, Bare;
    InvLegal(sched.State(), sched.nice);
    InitIsAlone(sched.State(), sched.nice);
    sched.Enqueue(IDLE);
    sched.ForceScheduler();
  }

  lemma InitIsAlone(s: Sched, nice: Niceness)
    requires Inv(s, nice) && Legal(s) && Runnable(s) == [] && nice(IDLE) == 0
    ensures IDLE !in Runnable(s)
    ensures var s1 := Enqueued(s, IDLE, nice).(force := true);
            Inv(s1, nice) && Ready(s1) && Booted(Bare(Switched(s1, nice)), nice)
  {
    hide Inv, Runnable, Enqueued, Switched, NoDuplicates;
    EnqueueKeeps(s, IDLE, nice);
    var s0 := Enqueued(s, IDLE, nice);
    FlagsKeep(s0, true, nice);
    InvLegal(s0.(force := true), nice);
    SwitchKeeps(s0.(force := true), nice);
    var s2 := Switched(s0.(force := true), nice);
    DistinctRunnable(s2, nice);
    OneElement(Runnable(s2), IDLE);
  }

  lemma OneElement(q: seq<Thread>, t: Thread)
    requires NoDuplicates(q) && forall u :: u in q <==> u == t
    ensures q == [t]
  {
    assert t in q;
    assert forall i :: 0 <= i < |q| ==> q[i] in q;
    if |q| >= 2 { FirstTwoDiffer(q); }
  }

  lemma FirstTwoDiffer(q: seq<Thread>)
    requires |q| >= 2 && NoDuplicates(q)
    ensures q[0] != q[1]
  {
  }

  lemma DistinctRunnable(s: Sched, nice: Niceness)
    requires Inv(s, nice)
    ensures Legal(s) && NoDuplicates(Runnable(s))
  {
    hide Runnable;
  }

  /** A run of the kernel: one step after the other. */
  ghost predicate Runs(ks: seq<State>, ops: seq<Op>, nice: Niceness) {
    |ks| == |ops| + 1 && forall i :: 0 <= i < |ops| ==> Steps(ks[i], ops[i], ks[i + 1], nice)
  }

  lemma {:induction false} RunKeeps(ks: seq<State>, ops: seq<Op>, i: nat, home: map<Thread, Place>, nice: Niceness)
    returns (home': map<Thread, Place>)
    requires Runs(ks, ops, nice) && Located(ks[0], home, nice) && i < |ks|
    ensures Located(ks[i], home', nice) && Legal(ks[i].sched) && (i > 0 ==> Running(ks[i]))
  {
    hide Inv, Runnable, Located, Steps;
    if i == 0 {
      LocatedParts(ks[0], home, nice);
      home' := home;
    } else {
      home' := RunKeeps(ks, ops, i - 1, home, nice);
      assert Steps(ks[i - 1], ops[i - 1], ks[i - 1 + 1], nice);
      home' := StepKeeps(ks[i - 1], ops[i - 1], ks[i], home', nice);
    }
  }

  /**
   In every state of every run each thread that is not erased is in exactly one place, one scheduler
   queue, one mutex queue, one semaphore queue or the list of sleepers, and no dead one is in a
   scheduler queue.
   */
  lemma EveryThreadHasOnePlace(ks: seq<State>, ops: seq<Op>, i: nat, nice: Niceness)
    returns (home: map<Thread, Place>)
    requires Runs(ks, ops, nice) && Booted(ks[0], nice) && i < |ks|
    ensures Located(ks[i], home, nice) && Legal(ks[i].sched) && Running(ks[i])
  {
    hide Inv, Runnable, NoDuplicates, Located;
    BootedIsLocated(ks[0], nice);
    home := RunKeeps(ks, ops, i, map[IDLE := InScheduler], nice);
  }

  lemma BootedIsLocated(k: State, nice: Niceness)
    requires Booted(k, nice)
    ensures Located(k, map[IDLE := InScheduler], nice) && Running(k)
  {
    hide Inv, Runnable;
    assert IDLE in k.sched.queueOf by { IdleIsKnown(k.sched, nice); }
    assert Sleep.Names(k.sleepers) == [];
  }

  lemma IdleIsKnown(s: Sched, nice: Niceness)
    requires Inv(s, nice)
    ensures IDLE in s.queueOf
  {
    hide NoDuplicates;
  }

  /** Who is dead stays so until it is erased, and is in no queue of the scheduler meanwhile. */
  lemma DeadStayDead(k: State, op: Op, k': State, t: Thread, home: map<Thread, Place>, nice: Niceness)
    requires Located(k, home, nice) && Steps(k, op, k', nice) && IsDead(k.table, t)
    ensures t !in k'.table || (IsDead(k'.table, t) && Legal(k'.sched) && t !in Runnable(k'.sched))
  {
    hide Inv, Runnable, NoDuplicates, Located, Suspended, Woken, Switched, Enqueued, KilledAll, Roused,
      Sleep.Due, Sleep.Alive, Sleep.Welcome, Sleep.Roused, Mutex.Taken, Semaphore.Released;
    var home' := StepKeeps(k, op, k', home, nice);
    LocatedParts(k', home', nice);
    LocatedParts(k, home, nice);
    match op {
      case Kill(victims) =>
        var dying :| && KilledAll(k, victims, dying, nice) && Inv(dying.sched, nice)
                     && k' == if k.sched.current.value in victims then Switch(dying, true, nice) else dying;
        KilledAllDead(k, victims, dying, t, nice);
      case Tick =>
        RousedParts(k, home, nice);
        RousedDead(k.table, Sleep.Due(k.sleepers), t);
      case _ =>
    }
  }

  lemma RousedDead(table: Table, due: seq<Thread>, t: Thread)
    requires IsDead(table, t)
    ensures t !in Sleep.Roused(table, due) || IsDead(Sleep.Roused(table, due), t)
  {
  }

  lemma {:induction false} KilledAllDead(k: State, ts: seq<Thread>, k': State, t: Thread, nice: Niceness)
    requires KilledAll(k, ts, k', nice) && IsDead(k.table, t)
    ensures IsDead(k'.table, t)
    decreases ts
  {
    hide Inv, Runnable, Dequeued;
    if ts != [] {
      KilledAllDead(Killed(k, ts[0], nice), ts[1..], k', t, nice);
    }
  }

  // -------------------------------------------------------- sleepers in every run

  function TickCount(ops: seq<Op>, i: nat): nat
    requires i <= |ops|
  {
    if i == 0 then 0 else TickCount(ops, i - 1) + if ops[i - 1].Tick? then 1 else 0
  }

  /** Thread t is alive and sleeps for n ticks more. */
  ghost predicate Sleeps(k: State, t: Thread, n: int) {
    Sleep.Sleeper(t, n) in k.sleepers && !IsDead(k.table, t)
  }

  ghost predicate Spared(op: Op, t: Thread) {
    op.Kill? ==> t !in op.victims
  }

  lemma SleeperPlace(k: State, t: Thread, n: int, home: map<Thread, Place>, nice: Niceness)
    requires Located(k, home, nice) && Sleep.Sleeper(t, n) in k.sleepers
    ensures t in k.table && t !in Runnable(k.sched) && !WaitsNowhere(k, t) && n >= 1
  {
    hide Inv, Runnable, NoDuplicates;
    var i :| 0 <= i < |k.sleepers| && k.sleepers[i] == Sleep.Sleeper(t, n);
    assert Sleep.Names(k.sleepers)[i] == t;
    assert t in Queue(k, Asleep);
    SoundQueues(k, nice);
  }

  /** Steps that are no timer interrupt leave the sleepers asleep. */
  lemma SleeperStays(k: State, op: Op, k': State, t: Thread, n: int, home: map<Thread, Place>, nice: Niceness)
    requires Located(k, home, nice) && Steps(k, op, k', nice) && Sleeps(k, t, n) && Spared(op, t) && !op.Tick?
    ensures Sleeps(k', t, n)
  {
    hide Inv, Runnable, NoDuplicates, Located, Suspended, Woken, Switched, Enqueued, Dequeued, KilledAll, WaitsNowhere,
      Mutex.Taken, Semaphore.Released, Mutex.Acquire, Semaphore.Wait, Mutex.Release, Semaphore.Signal, Sleep.Ticks;
    SleeperPlace(k, t, n, home, nice);
    LocatedParts(k, home, nice);
    match op {
      case Kill(victims) =>
        var c := k.sched.current.value;
        var dying :| && KilledAll(k, victims, dying, nice) && Inv(dying.sched, nice)
                     && k' == if c in victims then Switch(dying, true, nice) else dying;
        KilledAllSpares(k, victims, dying, t, nice);
      case _ =>
    }
  }

  lemma {:induction false} KilledAllSpares(k: State, ts: seq<Thread>, k': State, t: Thread, nice: Niceness)
    requires KilledAll(k, ts, k', nice) && t !in ts
    ensures k'.sleepers == k.sleepers && (IsDead(k'.table, t) <==> IsDead(k.table, t))
    decreases ts
  {
    hide Inv, Runnable, Dequeued;
    if ts != [] {
      assert ts[0] in ts && forall u :: u in ts[1..] ==> u in ts;
      KilledAllSpares(Killed(k, ts[0], nice), ts[1..], k', t, nice);
    }
  }

  /** A timer interrupt takes one tick off a sleeper, or wakes it. */
  lemma SleeperTicks(k: State, k': State, t: Thread, n: int, home: map<Thread, Place>, nice: Niceness)
    requires Located(k, home, nice) && Steps(k, Tick, k', nice) && Sleeps(k, t, n)
    ensures Legal(k'.sched)
    ensures if n > 1 then Sleeps(k', t, n - 1) else t in Runnable(k'.sched)
  {
    hide Inv, Runnable, NoDuplicates, Located, Switched, Sleep.Left, Sleep.Due, Sleep.WakeAll, Sleep.Alive, Queue,
      Sleep.Roused, Sleep.Welcome;
    SleeperPlace(k, t, n, home, nice);
    RousedParts(k, home, nice);
    SwitchParts(Roused(k, nice), false, nice);
    RousedSpares(k.table, Sleep.Due(k.sleepers), t);
    Sleep.TickSplits(k.sleepers);
    assert Sleep.Later(Sleep.Sleeper(t, n)) == Sleep.Sleeper(t, n - 1);
  }

  lemma RousedSpares(table: Table, due: seq<Thread>, t: Thread)
    requires !IsDead(table, t)
    ensures !IsDead(Sleep.Roused(table, due), t)
  {
  }

  /**
   On every run, whatever else the kernel does: a thread that sleeps for n ticks and is not killed is
   asleep, and in no queue of the scheduler, until the n-th timer interrupt, and that one makes it runnable.
   */
  lemma {:induction false} SleeperRunsOnItsTick(ks: seq<State>, ops: seq<Op>, i: nat, t: Thread, n: int,
                                                home: map<Thread, Place>, nice: Niceness)
    requires Runs(ks, ops, nice) && Located(ks[0], home, nice) && Sleeps(ks[0], t, n)
    requires i <= |ops| && forall j :: 0 <= j < i ==> Spared(ops[j], t)
    requires TickCount(ops, i) <= n
    ensures Legal(ks[i].sched)
    ensures TickCount(ops, i) < n ==> Sleeps(ks[i], t, n - TickCount(ops, i)) && t !in Runnable(ks[i].sched)
    ensures i > 0 && ops[i - 1].Tick? && TickCount(ops, i) == n ==> t in Runnable(ks[i].sched)
  {
    hide Inv, Runnable, Located, Steps, Sleeps, Spared;
    if i == 0 {
      LocatedParts(ks[0], home, nice);
      AwakeOrAsleep(ks[0], t, n, home, nice);
    } else if TickCount(ops, i - 1) < n {
      SleeperRunsOnItsTick(ks, ops, i - 1, t, n, home, nice);
      var left := n - TickCount(ops, i - 1);
      var here := RunKeeps(ks, ops, i - 1, home, nice);
      assert Steps(ks[i - 1], ops[i - 1], ks[i - 1 + 1], nice);
      var there := StepKeeps(ks[i - 1], ops[i - 1], ks[i], here, nice);
      LocatedParts(ks[i], there, nice);
      if ops[i - 1].Tick? {
        SleeperTicks(ks[i - 1], ks[i], t, left, here, nice);
        if left > 1 { AwakeOrAsleep(ks[i], t, left - 1, there, nice); }
      } else {
        SleeperStays(ks[i - 1], ops[i - 1], ks[i], t, left, here, nice);
        AwakeOrAsleep(ks[i], t, left, there, nice);
      }
    } else {
      var here := RunKeeps(ks, ops, i, home, nice);
      LocatedParts(ks[i], here, nice);
    }
  }

  lemma AwakeOrAsleep(k: State, t: Thread, n: int, home: map<Thread, Place>, nice: Niceness)
    requires Located(k, home, nice) && Sleeps(k, t, n)
    ensures Legal(k.sched) && t !in Runnable(k.sched) && n >= 1
  {
    hide Inv, Runnable, Located;
    LocatedParts(k, home, nice);
    SleeperPlace(k, t, n, home, nice);
  }
}
