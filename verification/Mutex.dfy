/** Kernel/mutex.c: the lock with an owner and a first-in first-out hand-off. */
module Mutex {
  import opened Sequences
  import opened Options
  import opened Threads
  import opened Scheduler

  /** mutex_struct; no owner stands for the process and thread number -1. */
  datatype MutexState = MutexState(value: int, owner: Option<Thread>, queue: seq<Thread>)

  const UNLOCKED := MutexState(0, None, [])

  /** A free mutex has no waiters, a locked one has an owner. */
  ghost predicate Sane(m: MutexState) {
    && 0 <= m.value <= 1
    && (m.value == 0 ==> m.queue == [])
    && (m.value == 1 ==> m.owner.Some?)
  }

  /** The thread between its lock and its unlock, if there is one. */
  function Inside(m: MutexState): Option<Thread> {
    if m.value == 0 then None else m.owner
  }

  /** mutex_lock by thread c: the new mutex, and whether c goes on. */
  function Acquire(m: MutexState, c: Thread): (MutexState, bool) {
    if m.value == 0 then (m.(value := 1, owner := Some(c)), true)
    else (m.(value := 1, queue := m.queue + [c]), false)
  }

  /** How many threads at the head of a wait queue are dead. */
  function DeadAhead(q: seq<Thread>, dead: set<Thread>): (k: nat)
    ensures k <= |q|
    ensures forall i :: 0 <= i < k ==> q[i] in dead
    ensures k < |q| ==> q[k] !in dead
  {
    if q == [] || q[0] !in dead then 0
    else
      var k := 1 + DeadAhead(q[1..], dead);
      assert forall i :: 0 < i < k ==> q[i] == q[1..][i - 1];
      k
  }

  /** mutex_unlock by thread c: the new mutex, and the thread that now owns it and may go on. */
  function Release(m: MutexState, c: Thread, dead: set<Thread>): (MutexState, Option<Thread>) {
    if m.owner != Some(c) then (m, None)
    else
      var k := DeadAhead(m.queue, dead);
      if k < |m.queue| then (m.(owner := Some(m.queue[k]), queue := m.queue[k + 1..]), Some(m.queue[k]))
      else (m.(value := 0, queue := []), None)
  }

  /** The threads that an unlock by c takes out of the wait queue: the dead ones first. */
  function Taken(m: MutexState, c: Thread, dead: set<Thread>): seq<Thread> {
    if m.owner != Some(c) then []
    else
      var k := DeadAhead(m.queue, dead);
      m.queue[..if k < |m.queue| then k + 1 else k]
  }

  /** Locking lets a thread in only when nobody is inside, and then nobody but that thread. */
  lemma AcquireExcludes(m: MutexState, c: Thread)
    requires Sane(m)
    ensures var (m', got) := Acquire(m, c);
            && Sane(m')
            && (got <==> Inside(m) == None)
            && Inside(m') == (if got then Some(c) else Inside(m))
            && m'.queue == (if got then [] else m.queue + [c])
  {
  }

  /**
   Only the thread inside can let go, and it hands the mutex to the first waiter that is alive; a call
   by anyone else changes nothing.
   */
  lemma ReleaseHandsOver(m: MutexState, c: Thread, dead: set<Thread>)
    requires Sane(m)
    ensures var (m', woken) := Release(m, c, dead);
            && Sane(m')
            && (Inside(m) != Some(c) ==> Inside(m') == Inside(m) && m'.queue == m.queue && woken == None)
            && (Inside(m) == Some(c) ==> Inside(m') == woken)
            && (woken.Some? ==> woken.value !in dead && woken.value in Taken(m, c, dead))
            && m.queue == Taken(m, c, dead) + m'.queue
            && (forall t :: t in Taken(m, c, dead) && woken != Some(t) ==> t in dead)
  {
    if m.owner == Some(c) && m.value == 0 {
      assert DeadAhead(m.queue, dead) == 0;
    }
    var k := DeadAhead(m.queue, dead);
    if k < |m.queue| {
      assert m.queue[..k + 1] == m.queue[..k] + [m.queue[k]];
    }
  }

  // ---------------------------------------------------------- first in, first out

  datatype Call = Lock(c: Thread) | Unlock(c: Thread, dead: set<Thread>)

  function After(m: MutexState, k: Call): MutexState {
    match k
    case Lock(c) => Acquire(m, c).0
    case Unlock(c, dead) => Release(m, c, dead).0
  }

  function Run(m: MutexState, ks: seq<Call>): MutexState
    decreases ks
  {
    if ks == [] then m else Run(After(m, ks[0]), ks[1..])
  }

  function Joins(m: MutexState, k: Call): seq<Thread> {
    if k.Lock? && !Acquire(m, k.c).1 then [k.c] else []
  }

  function Leaves(m: MutexState, k: Call): seq<Thread> {
    if k.Unlock? then Taken(m, k.c, k.dead) else []
  }

  /** The threads that had to wait, in the order in which they began to. */
  function Blocked(m: MutexState, ks: seq<Call>): seq<Thread>
    decreases ks
  {
    if ks == [] then [] else Joins(m, ks[0]) + Blocked(After(m, ks[0]), ks[1..])
  }

  /** The threads that stopped waiting, in the order in which they did, dead or with the mutex in hand. */
  function Served(m: MutexState, ks: seq<Call>): seq<Thread>
    decreases ks
  {
    if ks == [] then [] else Leaves(m, ks[0]) + Served(After(m, ks[0]), ks[1..])
  }

  /** One call: who joins the queue at its end, and who leaves it at its head. */
  lemma CallKeepsOrder(m: MutexState, k: Call)
    requires Sane(m)
    ensures Sane(After(m, k)) && m.queue + Joins(m, k) == Leaves(m, k) + After(m, k).queue
  {
    hide Acquire, Release, Taken;
    match k
    case Lock(c) => AcquireExcludes(m, c); NobodyWaits(m); assert [] + After(m, k).queue == After(m, k).queue;
    case Unlock(c, dead) => ReleaseHandsOver(m, c, dead); assert m.queue + [] == m.queue;
  }

  /**
   No overtaking: in every run those who waited are served in the order in which they blocked, those
   still waiting are the rest of that order, and a newcomer gets in at once only if nobody waits.
   */
  lemma {:induction false} WaitersAreServedInOrder(m: MutexState, ks: seq<Call>)
    requires Sane(m)
    ensures Sane(Run(m, ks))
    ensures m.queue + Blocked(m, ks) == Served(m, ks) + Run(m, ks).queue
    ensures forall c :: Acquire(Run(m, ks), c).1 ==> Run(m, ks).queue == []
    decreases ks
  {
    hide Joins, Leaves, After, Sane, Acquire, Inside;
    if ks == [] {
      forall c ensures Acquire(m, c).1 ==> m.queue == [] { AcquireExcludes(m, c); NobodyWaits(m); }
    } else {
      CallKeepsOrder(m, ks[0]);
      var m', rest := After(m, ks[0]), ks[1..];
      WaitersAreServedInOrder(m', rest);
      assert m.queue + (Joins(m, ks[0]) + Blocked(m', rest)) == (m.queue + Joins(m, ks[0])) + Blocked(m', rest);
      assert (Leaves(m, ks[0]) + m'.queue) + Blocked(m', rest) == Leaves(m, ks[0]) + (m'.queue + Blocked(m', rest));
      assert Leaves(m, ks[0]) + (Served(m', rest) + Run(m', rest).queue)
          == (Leaves(m, ks[0]) + Served(m', rest)) + Run(m', rest).queue;
    }
  }

  lemma NobodyWaits(m: MutexState)
    requires Sane(m)
    ensures Inside(m) == None ==> m.queue == []
  {
  }

  // ------------------------------------------------------------- thread table

  datatype Status = Ready | Sleeping | Dead

  function DeadOnes(status: map<Thread, Status>): set<Thread> {
    set t | t in status && status[t] == Dead
  }

  /** The thread control blocks; eraseTCB drops one. */
  class ThreadTable {
    var status: map<Thread, Status>

    constructor ()
      ensures status == map[]
    {
      status := map[];
    }

    method Set(t: Thread, now: Status)
      modifies this
      ensures status == old(status)[t := now]
    {
      status := status[t := now];
    }

    method EraseTCB(t: Thread)
      modifies this
      ensures status == old(status) - {t}
    {
      status := status - {t};
    }
  }

  /** The dead ones of the threads that left a wait queue. */
  function Buried(taken: seq<Thread>, dead: set<Thread>): set<Thread> {
    set t | t in taken && t in dead
  }

  lemma ReleaseByOther(m: MutexState, c: Thread, status: map<Thread, Status>)
    requires m.owner != Some(c)
    ensures Release(m, c, DeadOnes(status)) == (m, None)
    ensures status - Buried(Taken(m, c, DeadOnes(status)), DeadOnes(status)) == status
  {
  }

  lemma ReleaseAt(m: MutexState, c: Thread, dead: set<Thread>, k: nat, b: Sched, nice: Niceness)
    requires m.owner == Some(c) && Inv(b, nice) && DeadAhead(m.queue, dead) == k && Sane(m)
    ensures Legal(b) && Sane(Release(m, c, dead).0)
    ensures k < |m.queue| ==>
              && Release(m, c, dead) == (m.(owner := Some(m.queue[k]), queue := m.queue[k + 1..]), Some(m.queue[k]))
              && Taken(m, c, dead) == m.queue[..k + 1]
              && Woken(b, Some(m.queue[k]), nice) == Enqueued(b, m.queue[k], nice)
    ensures k == |m.queue| ==>
              && Release(m, c, dead) == (m.(value := 0, queue := []), None) && Taken(m, c, dead) == m.queue[..k]
              && Woken(b, None, nice) == b
  {
    hide Inv, Enqueued, Runnable;
    InvLegal(b, nice);
  }

  lemma DroppedNone(q: seq<Thread>, status: map<Thread, Status>, dead: set<Thread>)
    ensures q[0..] == q && status == status - Buried(q[..0], dead)
  {
  }

  /** One turn of the loop over the waiters: the bodies behind the head are still in the table. */
  lemma StillDead(q: seq<Thread>, k: nat, status: map<Thread, Status>, dead: set<Thread>)
    requires k < |q| && NoDuplicates(q) && dead == DeadOnes(status)
    ensures q[k..][0] == q[k] && q[k..][1..] == q[k + 1..]
    ensures var now := status - Buried(q[..k], dead);
            (q[k] in now && now[q[k]] == Dead) <==> q[k] in dead
    ensures q[k] in dead ==>
              status - Buried(q[..k + 1], dead) == status - Buried(q[..k], dead) - {q[k]}
    ensures q[k] !in dead ==> Buried(q[..k + 1], dead) == Buried(q[..k], dead)
  {
    assert q[..k + 1] == q[..k] + [q[k]];
    assert q[k] !in q[..k];
    assert q[k] in dead ==> Buried(q[..k + 1], dead) == Buried(q[..k], dead) + {q[k]};
  }

  lemma DeadAheadIs(q: seq<Thread>, dead: set<Thread>, k: nat)
    requires k <= |q| && (forall i :: 0 <= i < k ==> q[i] in dead) && (k < |q| ==> q[k] !in dead)
    ensures DeadAhead(q, dead) == k
  {
    var d := DeadAhead(q, dead);
    assert d < |q| ==> d >= k;
  }

  // ---------------------------------------------------------------- mutex_t

  class KernelMutex {
    var value: int
    var owner: Option<Thread>   // ownerPID and ownerTID
    var lockedQueue: seq<Thread>

    ghost function State(): MutexState
      reads this
    {
      MutexState(value, owner, lockedQueue)
    }

    constructor ()
      ensures State() == UNLOCKED
    {
      value, owner, lockedQueue := 0, None, [];
    }

    method Lock(sched: KernelScheduler)
      requires sched.Valid() && Sane(State())
      modifies this, sched, sched.priorityLevel, sched.ringLevel
      ensures sched.Valid() && Sane(State())
      ensures old(sched.current) == None ==> State() == old(State()) && sched.State() == old(sched.State())
      ensures old(sched.current).Some? ==>
                && var c := old(sched.current).value;
                && State() == Acquire(old(State()), c).0
                && sched.State() == if Acquire(old(State()), c).1 then old(sched.State())
                                    else Suspended(old(sched.State()), c, sched.nice)
    {
      hide Inv, Dequeued, Switched;
      if sched.current == None {
        return;
      }
      ghost var was := sched.State();
      var c := sched.current.value;
      CurrentIsKnown(was, sched.nice);
      var taken := value;
      value := 1;
      if taken == 0 {
        owner := Some(c);
      } else {
        lockedQueue := lockedQueue + [c];
        var removed := sched.DequeueThread(c);
        sched.ForceScheduler();
      }
    }

    method Unlock(sched: KernelScheduler, table: ThreadTable)
      requires sched.Valid() && Sane(State()) && NoDuplicates(lockedQueue)
      requires forall t :: t in lockedQueue ==> t !in Runnable(sched.State())
      modifies this, table, sched, sched.priorityLevel, sched.ringLevel
      ensures sched.Valid() && Sane(State())
      ensures old(sched.current) == None ==>
                State() == old(State()) && sched.State() == old(sched.State()) && table.status == old(table.status)
      ensures old(sched.current).Some? ==>
                && var (c, dead) := (old(sched.current).value, DeadOnes(old(table.status)));
                && var (m, woken) := Release(old(State()), c, dead);
                && State() == m
                && sched.State() == Woken(old(sched.State()), woken, sched.nice)
                && table.status == old(table.status) - Buried(Taken(old(State()), c, dead), dead)
    {
      hide Inv, Enqueued, Buried, NoDuplicates, DeadOnes, Runnable, Release, Taken, Woken, Sane;
      WokenNobody(sched.State(), sched.nice);
      if sched.current == None || owner != sched.current {
        if sched.current.Some? { ReleaseByOther(State(), sched.current.value, table.status); }
        return;
      }
      ghost var m, c := State(), sched.current.value;
      ghost var q, status, dead := lockedQueue, table.status, DeadOnes(table.status);
      ghost var k := 0;
      DroppedNone(q, status, dead);
      while lockedQueue != []
        invariant k <= |q| && lockedQueue == q[k..]
        invariant forall i :: 0 <= i < k ==> q[i] in dead
        invariant table.status == status - Buried(q[..k], dead)
        invariant value == old(value) && owner == old(owner) && sched.State() == old(sched.State()) && sched.Valid()
        decreases |lockedQueue|
      {
        var t := lockedQueue[0];
        lockedQueue := lockedQueue[1..];
        assert t == q[k];
        StillDead(q, k, status, dead);
        if t in table.status && table.status[t] == Dead {
          table.EraseTCB(t);
          k := k + 1;
        } else {
          owner := Some(t);
          DeadAheadIs(q, dead, k);
          ReleaseAt(m, c, dead, k, sched.State(), sched.nice);
          sched.Enqueue(t);
          return;
        }
      }
      DeadAheadIs(q, dead, k);
      ReleaseAt(m, c, dead, k, sched.State(), sched.nice);
      value := 0;
    }
  }
}
