/** Kernel/sem.c: the counting semaphore that hands a signal straight to the first live waiter. */
module Semaphore {
  import opened Sequences
  import opened Options
  import opened Threads
  import opened Scheduler
  import opened Mutex

  /** sem_struct without its inner mutex. */
  datatype SemState = SemState(value: int, queue: seq<Thread>)

  /** Threads wait only while nothing is left to take. */
  predicate Orderly(s: SemState) {
    0 <= s.value && (s.value > 0 ==> s.queue == [])
  }

  /** sem_wait by thread c: the new semaphore, and whether c goes on. */
  function Wait(s: SemState, c: Thread): (SemState, bool) {
    if s.value == 0 then (s.(queue := s.queue + [c]), false)
    else (s.(value := s.value - 1), true)
  }

  /** sem_signal: the new semaphore, and the waiter that may go on. */
  function Signal(s: SemState, dead: set<Thread>): (SemState, Option<Thread>) {
    var k := DeadAhead(s.queue, dead);
    if k < |s.queue| then (s.(queue := s.queue[k + 1..]), Some(s.queue[k]))
    else (SemState(s.value + 1, []), None)
  }

  /** The threads that a signal takes out of the wait queue: the dead ones first. */
  function Released(s: SemState, dead: set<Thread>): seq<Thread> {
    var k := DeadAhead(s.queue, dead);
    s.queue[..if k < |s.queue| then k + 1 else k]
  }

  lemma WaitBlocksAtZero(s: SemState, c: Thread)
    requires Orderly(s)
    ensures var (s', goes) := Wait(s, c);
            && Orderly(s')
            && (goes <==> s.value > 0)
            && s'.value == s.value - (if goes then 1 else 0)
            && s'.queue == s.queue + (if goes then [] else [c])
  {
    assert s.queue + [] == s.queue;
  }

  /**
   A signal goes to the first living waiter or, if there is none, into the value; the dead ones it
   meets on its way are dropped and cost nothing.
   */
  lemma SignalIsSpentOnce(s: SemState, dead: set<Thread>)
    requires Orderly(s)
    ensures var (s', woken) := Signal(s, dead);
            && Orderly(s')
            && s.queue == Released(s, dead) + s'.queue
            && s'.value == s.value + (if woken.Some? then 0 else 1)
            && (woken.Some? <==> exists t :: t in s.queue && t !in dead)
            && (forall t :: t in Released(s, dead) && woken != Some(t) ==> t in dead)
            && (woken.Some? ==> woken.value !in dead && woken.value in Released(s, dead))
  {
    var k := DeadAhead(s.queue, dead);
    if k < |s.queue| {
      assert s.queue[k] in s.queue;
      assert Released(s, dead) == s.queue[..k] + [s.queue[k]];
    }
  }

  // --------------------------------------------------------------- whole runs

  datatype Call = Waits(c: Thread) | Signals(dead: set<Thread>)

  function After(s: SemState, k: Call): SemState {
    match k
    case Waits(c) => Wait(s, c).0
    case Signals(dead) => Signal(s, dead).0
  }

  function Run(s: SemState, ks: seq<Call>): SemState
    decreases ks
  {
    if ks == [] then s else Run(After(s, ks[0]), ks[1..])
  }

  function SignalCount(ks: seq<Call>): nat
    decreases ks
  {
    if ks == [] then 0 else (if ks[0].Signals? then 1 else 0) + SignalCount(ks[1..])
  }

  /** Whether a call lets a thread past the semaphore: the caller, or a waiter it hands the signal to. */
  function Grants(s: SemState, k: Call): nat {
    match k
    case Waits(c) => if Wait(s, c).1 then 1 else 0
    case Signals(dead) => if Signal(s, dead).1.Some? then 1 else 0
  }

  function Granted(s: SemState, ks: seq<Call>): nat
    decreases ks
  {
    if ks == [] then 0 else Grants(s, ks[0]) + Granted(After(s, ks[0]), ks[1..])
  }

  function Joins(s: SemState, k: Call): seq<Thread> {
    if k.Waits? && !Wait(s, k.c).1 then [k.c] else []
  }

  function Leaves(s: SemState, k: Call): seq<Thread> {
    if k.Signals? then Released(s, k.dead) else []
  }

  /** The threads that had to wait, in the order in which they began to. */
  function Blocked(s: SemState, ks: seq<Call>): seq<Thread>
    decreases ks
  {
    if ks == [] then [] else Joins(s, ks[0]) + Blocked(After(s, ks[0]), ks[1..])
  }

  /** The threads that stopped waiting, in the order in which they did. */
  function Served(s: SemState, ks: seq<Call>): seq<Thread>
    decreases ks
  {
    if ks == [] then [] else Leaves(s, ks[0]) + Served(After(s, ks[0]), ks[1..])
  }

  /** One call: what it does to the value and to the queue. */
  lemma CallConserves(s: SemState, k: Call)
    requires Orderly(s)
    ensures var s' := After(s, k);
            && Orderly(s')
            && s'.value + Grants(s, k) == s.value + (if k.Signals? then 1 else 0)
            && s.queue + Joins(s, k) == Leaves(s, k) + s'.queue
  {
    hide Released, Wait, Signal;
    match k
    case Waits(c) => WaitBlocksAtZero(s, c); assert [] + After(s, k).queue == After(s, k).queue;
    case Signals(dead) => SignalIsSpentOnce(s, dead); assert s.queue + [] == s.queue;
  }

  /**
   Conservation: whatever the calls and whoever dies meanwhile, the value is the start value plus the
   signals minus the threads let past, and threads wait only at value 0.
   */
  lemma {:induction false} SignalsAreConserved(s: SemState, ks: seq<Call>)
    requires Orderly(s)
    ensures Orderly(Run(s, ks))
    ensures Run(s, ks).value == s.value + SignalCount(ks) - Granted(s, ks)
    decreases ks
  {
    hide Grants, After;
    if ks != [] {
      CallConserves(s, ks[0]);
      SignalsAreConserved(After(s, ks[0]), ks[1..]);
    }
  }

  /** No overtaking: those who waited leave the queue in the order in which they joined it. */
  lemma {:induction false} WaitersLeaveInOrder(s: SemState, ks: seq<Call>)
    requires Orderly(s)
    ensures s.queue + Blocked(s, ks) == Served(s, ks) + Run(s, ks).queue
    decreases ks
  {
    hide Joins, Leaves, After, Orderly;
    if ks != [] {
      CallConserves(s, ks[0]);
      var s', rest := After(s, ks[0]), ks[1..];
      WaitersLeaveInOrder(s', rest);
      assert s.queue + (Joins(s, ks[0]) + Blocked(s', rest)) == (s.queue + Joins(s, ks[0])) + Blocked(s', rest);
      assert (Leaves(s, ks[0]) + s'.queue) + Blocked(s', rest) == Leaves(s, ks[0]) + (s'.queue + Blocked(s', rest));
      assert Leaves(s, ks[0]) + (Served(s', rest) + Run(s', rest).queue)
          == (Leaves(s, ks[0]) + Served(s', rest)) + Run(s', rest).queue;
    }
  }

  // ------------------------------------------------------------------ sem_t

  /** A mutex that nobody holds and nobody waits for; who held it last does not matter. */
  ghost predicate Free(m: MutexState) {
    m.value == 0 && m.queue == []
  }

  class KernelSemaphore {
    var value: int
    var lockedQueue: seq<Thread>
    const mutex: KernelMutex

    ghost function State(): SemState
      reads this
    {
      SemState(value, lockedQueue)
    }

    ghost predicate Valid()
      reads this, mutex
    {
      Orderly(State()) && Free(mutex.State())
    }

    constructor (startValue: nat)
      ensures Valid() && State() == SemState(startValue, []) && fresh(mutex)
    {
      value, lockedQueue := startValue, [];
      mutex := new KernelMutex();
    }

    /** The inner mutex is free whenever a call begins, so the lock never puts the caller to sleep. */
    method SemWait(sched: KernelScheduler, table: ThreadTable)
      requires Valid() && sched.Valid()
      modifies this, mutex, table, sched, sched.priorityLevel, sched.ringLevel
      ensures Valid() && sched.Valid() && table.status == old(table.status)
      ensures old(sched.current) == None ==> State() == old(State()) && sched.State() == old(sched.State())
      ensures old(sched.current).Some? ==>
                && var c := old(sched.current).value;
                && State() == Wait(old(State()), c).0
                && sched.State() == if Wait(old(State()), c).1 then old(sched.State())
                                    else Suspended(old(sched.State()), c, sched.nice)
    {
      hide Inv, Dequeued, Switched, Suspended, Enqueued, Runnable, DeadOnes, Buried, Taken, Acquire, Release, Woken,
        NoDuplicates, Sane;
      if sched.current == None {
        return;
      }
      ghost var was, status, dead := sched.State(), table.status, DeadOnes(table.status);
      var c := sched.current.value;
      CurrentIsKnown(was, sched.nice);
      LockedAtOnce(mutex.State());
      mutex.Lock(sched);
      ghost var inner := mutex.State();
      assert sched.State() == was;
      WokenNobody(was, sched.nice);
      if value == 0 {
        lockedQueue := lockedQueue + [c];
        NobodyBuried(inner, c, status, dead);
        mutex.Unlock(sched, table);
        assert sched.State() == was;
        Block(sched, was, c);
      } else {
        value := value - 1;
        NobodyBuried(inner, c, status, dead);
        mutex.Unlock(sched, table);
        assert sched.State() == was;
      }
    }

    /** What sem_wait does with a thread that has to wait. */
    method Block(sched: KernelScheduler, ghost was: Sched, c: Thread)
      requires sched.Valid() && sched.State() == was && c in was.queueOf
      modifies sched, sched.priorityLevel, sched.ringLevel
      ensures sched.Valid() && sched.State() == Suspended(was, c, sched.nice)
    {
      hide Inv, Dequeued, Switched, Suspended;
      SuspendKeeps(was, c, sched.nice);
      var removed := sched.DequeueThread(c);
      sched.ForceScheduler();
    }

    method SemSignal(sched: KernelScheduler, table: ThreadTable)
      requires Valid() && sched.Valid() && NoDuplicates(lockedQueue)
      requires forall t :: t in lockedQueue ==> t !in Runnable(sched.State())
      requires sched.current == None ==> lockedQueue == []
      modifies this, mutex, table, sched, sched.priorityLevel, sched.ringLevel
      ensures Valid() && sched.Valid()
      ensures var dead := DeadOnes(old(table.status));
              var (s, woken) := Signal(old(State()), dead);
              && State() == s
              && sched.State() == Woken(old(sched.State()), woken, sched.nice)
              && table.status == old(table.status) - Buried(Released(old(State()), dead), dead)
    {
      hide Inv, Enqueued, Runnable, DeadOnes, Buried, NoDuplicates, Taken, Acquire, Release, Signal, Released, Woken;
      LockedAtOnce(mutex.State());
      mutex.Lock(sched);
      ghost var inner, was := mutex.State(), sched.State();
      assert was == old(sched.State());
      var woken := WakeWaiter(sched, table);
      if !woken {
        value := value + 1;
      }
      assert mutex.State() == inner;
      ghost var now, c := sched.State(), sched.current;
      if c.Some? {
        NobodyBuried(inner, c.value, table.status, DeadOnes(table.status));
        WokenNobody(now, sched.nice);
      }
      mutex.Unlock(sched, table);
      assert sched.State() == now;
    }

    /** The loop of sem_signal over the waiters, while the inner mutex is held. */
    method WakeWaiter(sched: KernelScheduler, table: ThreadTable) returns (woken: bool)
      requires Orderly(State()) && sched.Valid() && NoDuplicates(lockedQueue)
      requires forall t :: t in lockedQueue ==> t !in Runnable(sched.State())
      requires sched.current == None ==> lockedQueue == []
      modifies this, table, sched, sched.priorityLevel, sched.ringLevel
      ensures sched.Valid() && sched.current == old(sched.current)
      ensures var dead := DeadOnes(old(table.status));
              var (s, t) := Signal(old(State()), dead);
              && woken == t.Some? && State() == SemState(old(value), s.queue)
              && Orderly(s) && s.value == old(value) + (if woken then 0 else 1)
              && sched.State() == Woken(old(sched.State()), t, sched.nice)
              && table.status == old(table.status) - Buried(Released(old(State()), dead), dead)
    {
      hide Inv, Enqueued, Runnable, DeadOnes, Buried, NoDuplicates, Signal, Released, Woken, Orderly;
      ghost var q, status, dead := lockedQueue, table.status, DeadOnes(table.status);
      ghost var k := 0;
      DroppedNone(q, status, dead);
      while lockedQueue != []
        invariant k <= |q| && lockedQueue == q[k..]
        invariant forall i :: 0 <= i < k ==> q[i] in dead
        invariant table.status == status - Buried(q[..k], dead)
        invariant value == old(value) && sched.State() == old(sched.State()) && sched.Valid()
        decreases |lockedQueue|
      {
        var t := lockedQueue[0];
        lockedQueue := lockedQueue[1..];
        assert t == q[k];
        StillDead(q, k, status, dead);
        if t in table.status && table.status[t] == Dead {
          table.EraseTCB(t);
          k := k + 1;
        } else {
          DeadAheadIs(q, dead, k);
          SignalAt(old(State()), dead, k, old(sched.State()), sched.nice);
          sched.Enqueue(t);
          return true;
        }
      }
      DeadAheadIs(q, dead, k);
      SignalAt(old(State()), dead, k, old(sched.State()), sched.nice);
      return false;
    }
  }

  lemma LockedAtOnce(m: MutexState)
    requires Free(m)
    ensures Sane(m) && NoDuplicates(m.queue)
    ensures forall c :: Acquire(m, c) == (m.(value := 1, owner := Some(c)), true)
  {
  }

  lemma SignalAt(s: SemState, dead: set<Thread>, k: nat, b: Sched, nice: Niceness)
    requires Inv(b, nice) && Orderly(s) && DeadAhead(s.queue, dead) == k
    ensures Legal(b) && Orderly(Signal(s, dead).0)
    ensures Woken(b, Signal(s, dead).1, nice).current == b.current
    ensures k < |s.queue| ==>
              && Signal(s, dead) == (s.(queue := s.queue[k + 1..]), Some(s.queue[k]))
              && Released(s, dead) == s.queue[..k + 1]
              && Woken(b, Some(s.queue[k]), nice) == Enqueued(b, s.queue[k], nice)
    ensures k == |s.queue| ==>
              && Signal(s, dead) == (SemState(s.value + 1, []), None) && Released(s, dead) == s.queue[..k]
              && Woken(b, None, nice) == b
  {
    hide Inv, Enqueued;
    InvLegal(b, nice);
    if k < |s.queue| { EnqueueLeaves(b, s.queue[k], nice); }
  }

  /** Letting go of the inner mutex wakes and buries nobody. */
  lemma NobodyBuried(m: MutexState, c: Thread, status: map<Thread, Status>, dead: set<Thread>)
    requires m.queue == []
    ensures Sane(m.(value := 0)) && (m.owner.Some? && m.value == 1 ==> Sane(m))
    ensures var (m', woken) := Release(m, c, dead);
            && woken == None && m'.queue == [] && (m.owner == Some(c) ==> m'.value == 0)
    ensures status - Buried(Taken(m, c, dead), dead) == status
    ensures NoDuplicates(m.queue)
  {
  }
}
