/**
 What the laws of mutexes, semaphores and sleepers say of whole runs of the kernel: each of them lives
 through exactly those calls that the steps of the run make to it.
 */
module KernelLaws {
  import opened Options
  import opened Threads
  import opened Scheduler
  import opened Kernel
  import Mutex
  import Semaphore
  import Sleep

  /** The call to mutex id that a step makes, if any, with those dead at the time. */
  function MutexCall(k: State, op: Op, id: int): seq<Mutex.Call>
    requires k.sched.current.Some?
  {
    match op
    case Lock(m) => if m == id then [Mutex.Lock(k.sched.current.value)] else []
    case Unlock(m) => if m == id then [Mutex.Unlock(k.sched.current.value, DeadIn(k))] else []
    case _ => []
  }

  function SemCall(k: State, op: Op, id: int): seq<Semaphore.Call>
    requires k.sched.current.Some?
  {
    match op
    case Wait(s) => if s == id then [Semaphore.Waits(k.sched.current.value)] else []
    case Signal(s) => if s == id then [Semaphore.Signals(DeadIn(k))] else []
    case _ => []
  }

  function SleepCall(k: State, op: Op): seq<Sleep.Call>
    requires k.sched.current.Some?
  {
    match op
    case SleepFor(millis) => [Sleep.Sleep(k.sched.current.value, millis)]
    case Tick => [Sleep.Update]
    case _ => []
  }

  ghost predicate Ran(ks: seq<State>, ops: seq<Op>, nice: Niceness) {
    Runs(ks, ops, nice) && forall j :: 0 <= j < |ops| ==> ks[j].sched.current.Some?
  }

  /** The calls that the first i steps of a run make. */
  ghost function MutexCalls(ks: seq<State>, ops: seq<Op>, i: nat, id: int, nice: Niceness): seq<Mutex.Call>
    requires Ran(ks, ops, nice) && i <= |ops|
  {
    if i == 0 then [] else MutexCalls(ks, ops, i - 1, id, nice) + MutexCall(ks[i - 1], ops[i - 1], id)
  }

  ghost function SemCalls(ks: seq<State>, ops: seq<Op>, i: nat, id: int, nice: Niceness): seq<Semaphore.Call>
    requires Ran(ks, ops, nice) && i <= |ops|
  {
    if i == 0 then [] else SemCalls(ks, ops, i - 1, id, nice) + SemCall(ks[i - 1], ops[i - 1], id)
  }

  ghost function SleepCalls(ks: seq<State>, ops: seq<Op>, i: nat, nice: Niceness): seq<Sleep.Call>
    requires Ran(ks, ops, nice) && i <= |ops|
  {
    if i == 0 then [] else SleepCalls(ks, ops, i - 1, nice) + SleepCall(ks[i - 1], ops[i - 1])
  }

  lemma RunsAreRan(ks: seq<State>, ops: seq<Op>, nice: Niceness)
    requires Runs(ks, ops, nice)
    ensures Ran(ks, ops, nice)
  {
    hide Inv, Running;
    forall j | 0 <= j < |ops|
      ensures ks[j].sched.current.Some?
    {
      assert Steps(ks[j], ops[j], ks[j + 1], nice);
      SomebodyRuns(ks[j]);
    }
  }

  lemma SomebodyRuns(k: State)
    requires Legal(k.sched) && Running(k)
    ensures k.sched.current.Some?
  {
    hide Runnable;
  }

  lemma {:induction false} KilledTouchesNoQueue(k: State, ts: seq<Thread>, k': State, nice: Niceness)
    requires KilledAll(k, ts, k', nice)
    ensures k'.mutexes == k.mutexes && k'.sems == k.sems && k'.sleepers == k.sleepers
    decreases ts
  {
    hide Inv, Dequeued, Runnable;
    if ts != [] {
      KilledTouchesNoQueue(Killed(k, ts[0], nice), ts[1..], k', nice);
    }
  }

  lemma OneMutexCall(m: Mutex.MutexState, k: Mutex.Call)
    ensures Mutex.Run(m, [k]) == Mutex.After(m, k) && Mutex.Run(m, []) == m
  {
    assert [k][1..] == [];
    assert Mutex.Run(Mutex.After(m, k), []) == Mutex.After(m, k);
  }

  lemma OneSemCall(s: Semaphore.SemState, k: Semaphore.Call)
    ensures Semaphore.Run(s, [k]) == Semaphore.After(s, k) && Semaphore.Run(s, []) == s
  {
    assert [k][1..] == [];
    assert Semaphore.Run(Semaphore.After(s, k), []) == Semaphore.After(s, k);
  }

  lemma OneSleepCall(l: seq<Sleep.Sleeper>, k: Sleep.Call)
    ensures Sleep.Run(l, [k]) == Sleep.After(l, k) && Sleep.Run(l, []) == l
  {
    assert [k][1..] == [];
    assert Sleep.Run(Sleep.After(l, k), []) == Sleep.After(l, k);
  }

  /** One step of the kernel is one call at most, to one of them. */
  lemma StepCalls(k: State, op: Op, k': State, id: int, nice: Niceness)
    requires Steps(k, op, k', nice) && k.sched.current.Some?
    ensures id in k.mutexes ==> id in k'.mutexes && k'.mutexes[id] == Mutex.Run(k.mutexes[id], MutexCall(k, op, id))
    ensures id in k.sems ==> id in k'.sems && k'.sems[id] == Semaphore.Run(k.sems[id], SemCall(k, op, id))
    ensures k'.sleepers == Sleep.Run(k.sleepers, SleepCall(k, op))
  {
    hide Inv, Running, Runnable, Suspended, Woken, Switched, Enqueued, Dequeued, Mutex.Acquire, Mutex.Release,
      Semaphore.Wait, Semaphore.Signal, Sleep.Left, Sleep.WakeAll, Sleep.Welcome, Sleep.Run, Mutex.Run, Semaphore.Run,
      KilledAll, WaitsNowhere, Sleep.Roused, Sleep.Ticks;
    var c := k.sched.current.value;
    OneSleepCall(k.sleepers, Sleep.Update);
    if op.SleepFor? { OneSleepCall(k.sleepers, Sleep.Sleep(c, op.millis)); }
    if id in k.mutexes {
      OneMutexCall(k.mutexes[id], Mutex.Lock(c));
      OneMutexCall(k.mutexes[id], Mutex.Unlock(c, DeadIn(k)));
    }
    if id in k.sems {
      OneSemCall(k.sems[id], Semaphore.Waits(c));
      OneSemCall(k.sems[id], Semaphore.Signals(DeadIn(k)));
    }
    if op.Kill? {
      var dying :| KilledAll(k, op.victims, dying, nice) && Inv(dying.sched, nice)
                     && k' == if c in op.victims then Switch(dying, true, nice) else dying;
      KilledTouchesNoQueue(k, op.victims, dying, nice);
    }
  }

  lemma {:induction false} MutexRunConcat(m: Mutex.MutexState, a: seq<Mutex.Call>, b: seq<Mutex.Call>)
    ensures Mutex.Run(m, a + b) == Mutex.Run(Mutex.Run(m, a), b)
    decreases a
  {
    if a == [] {
      assert a + b == b;
    } else {
      assert (a + b)[0] == a[0] && (a + b)[1..] == a[1..] + b;
      MutexRunConcat(Mutex.After(m, a[0]), a[1..], b);
    }
  }

  lemma {:induction false} SemRunConcat(s: Semaphore.SemState, a: seq<Semaphore.Call>, b: seq<Semaphore.Call>)
    ensures Semaphore.Run(s, a + b) == Semaphore.Run(Semaphore.Run(s, a), b)
    decreases a
  {
    if a == [] {
      assert a + b == b;
    } else {
      assert (a + b)[0] == a[0] && (a + b)[1..] == a[1..] + b;
      SemRunConcat(Semaphore.After(s, a[0]), a[1..], b);
    }
  }

  lemma {:induction false} SleepRunConcat(l: seq<Sleep.Sleeper>, a: seq<Sleep.Call>, b: seq<Sleep.Call>)
    ensures Sleep.Run(l, a + b) == Sleep.Run(Sleep.Run(l, a), b)
    decreases a
  {
    if a == [] {
      assert a + b == b;
    } else {
      assert (a + b)[0] == a[0] && (a + b)[1..] == a[1..] + b;
      SleepRunConcat(Sleep.After(l, a[0]), a[1..], b);
    }
  }

  /** A run of the kernel, seen by one mutex, by one semaphore and by the list of sleepers. */
  lemma {:induction false} RunsAreCalls(ks: seq<State>, ops: seq<Op>, i: nat, id: int, nice: Niceness)
    requires Ran(ks, ops, nice) && i <= |ops|
    ensures id in ks[0].mutexes ==>
              id in ks[i].mutexes && ks[i].mutexes[id] == Mutex.Run(ks[0].mutexes[id], MutexCalls(ks, ops, i, id, nice))
    ensures id in ks[0].sems ==>
              id in ks[i].sems && ks[i].sems[id] == Semaphore.Run(ks[0].sems[id], SemCalls(ks, ops, i, id, nice))
    ensures ks[i].sleepers == Sleep.Run(ks[0].sleepers, SleepCalls(ks, ops, i, nice))
  {
    hide Steps, MutexCall, SemCall, SleepCall;
    if i > 0 {
      var k := ks[i - 1];
      RunsAreCalls(ks, ops, i - 1, id, nice);
      StepCalls(k, ops[i - 1], ks[i], id, nice);
      if id in ks[0].mutexes {
        MutexRunConcat(ks[0].mutexes[id], MutexCalls(ks, ops, i - 1, id, nice), MutexCall(k, ops[i - 1], id));
      }
      if id in ks[0].sems {
        SemRunConcat(ks[0].sems[id], SemCalls(ks, ops, i - 1, id, nice), SemCall(k, ops[i - 1], id));
      }
      SleepRunConcat(ks[0].sleepers, SleepCalls(ks, ops, i - 1, nice), SleepCall(k, ops[i - 1]));
    }
  }

  /**
   On every run of the kernel, whoever is created, killed or put to sleep meanwhile: the threads that
   wait for a mutex are served in the order in which they blocked on it, and those that wait for a semaphore
   as well; its value is what it was, plus the signals, minus the threads let past.
   */
  lemma WaitersAreServedInOrder(ks: seq<State>, ops: seq<Op>, id: int, nice: Niceness)
    requires Runs(ks, ops, nice)
    ensures Ran(ks, ops, nice)
    ensures var n := |ops|;
            id in ks[0].mutexes && Mutex.Sane(ks[0].mutexes[id]) ==>
              && id in ks[n].mutexes
              && var m, m', calls := ks[0].mutexes[id], ks[n].mutexes[id], MutexCalls(ks, ops, n, id, nice);
                 Mutex.Sane(m') && m.queue + Mutex.Blocked(m, calls) == Mutex.Served(m, calls) + m'.queue
    ensures var n := |ops|;
            id in ks[0].sems && Semaphore.Orderly(ks[0].sems[id]) ==>
              && id in ks[n].sems
              && var s, s', calls := ks[0].sems[id], ks[n].sems[id], SemCalls(ks, ops, n, id, nice);
                 && Semaphore.Orderly(s')
                 && s.queue + Semaphore.Blocked(s, calls) == Semaphore.Served(s, calls) + s'.queue
                 && s'.value == s.value + Semaphore.SignalCount(calls) - Semaphore.Granted(s, calls)
  {
    hide Runs, Ran;
    RunsAreRan(ks, ops, nice);
    RanParts(ks, ops, nice);
    RunsAreCalls(ks, ops, |ops|, id, nice);
    if id in ks[0].mutexes && Mutex.Sane(ks[0].mutexes[id]) {
      Mutex.WaitersAreServedInOrder(ks[0].mutexes[id], MutexCalls(ks, ops, |ops|, id, nice));
    }
    if id in ks[0].sems && Semaphore.Orderly(ks[0].sems[id]) {
      Semaphore.WaitersLeaveInOrder(ks[0].sems[id], SemCalls(ks, ops, |ops|, id, nice));
      Semaphore.SignalsAreConserved(ks[0].sems[id], SemCalls(ks, ops, |ops|, id, nice));
    }
  }

  lemma RanParts(ks: seq<State>, ops: seq<Op>, nice: Niceness)
    requires Ran(ks, ops, nice)
    ensures |ks| == |ops| + 1
  {
    hide Steps;
  }
}
