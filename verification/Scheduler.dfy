/** Kernel/scheduler.c: the quantum rotation between the priority level and the ring. */
module Scheduler {
  import opened Sequences
  import opened Options
  import opened Threads
  import opened PriorityRounds
  import opened RoundRobin

  const IDLE := Thread(0, 0)   // getProcessByPID(0)->threadList[0]

  function Quantum(level: int): int {
    if level == 0 then 8 else 3
  }

  datatype Sched = Sched(
    rounds: Rounds,               // Queues[0]
    ring: seq<Thread>,            // Queues[1]
    queueOf: map<Thread, int>,    // thread_t.queueID
    currQueue: int,
    slice: int,                   // currTimeSlice
    force: bool,                  // FORCE
    current: Option<Thread>)      // currentThread

  ghost predicate Legal(s: Sched) {
    Shaped(s.rounds) && 0 <= s.currQueue <= 1
  }

  function Level(s: Sched, level: int): seq<Thread>
    requires Legal(s)
  {
    if level == 0 then Order(s.rounds) else s.ring
  }

  /** Every thread that a queue of the scheduler holds. */
  function Runnable(s: Sched): seq<Thread>
    requires Legal(s)
  {
    Order(s.rounds) + s.ring
  }

  predicate InPriorityLevel(s: Sched, t: Thread) {
    t in s.queueOf && s.queueOf[t] == 0
  }

  /** A running thread of the priority level is in the first tick of its slice. */
  ghost predicate Ready(s: Sched) {
    && Legal(s)
    && (s.current.Some? && InPriorityLevel(s, s.current.value) ==>
          s.current.value in s.rounds.slices && s.rounds.slices[s.current.value] == 0)
  }

  /** What every call of the scheduler keeps. */
  ghost predicate Inv(s: Sched, nice: Niceness) {
    && Ready(s) && Sorted(s.rounds, nice) && 0 <= s.slice <= 9
    && NoDuplicates(Runnable(s))
    && (forall t :: t in Order(s.rounds) ==> t in s.queueOf && nice(t) > 0)
    && (forall t :: t in s.ring ==> t in s.queueOf && nice(t) == 0)
    && (forall t :: t in s.queueOf ==> s.queueOf[t] == if nice(t) > 0 then 0 else 1)
    && nice(IDLE) == 0 && IDLE in s.queueOf && (s.current.Some? ==> s.current.value in s.queueOf)
    && (s.current == None ==> Order(s.rounds) == [])
  }

  // ------------------------------------------------------------ operations

  function Enqueued(s: Sched, t: Thread, nice: Niceness): Sched
    requires Legal(s)
  {
    if nice(t) > 0 then s.(rounds := PriorityRounds.Enqueue(s.rounds, t, nice), queueOf := s.queueOf[t := 0])
    else s.(ring := s.ring + [t], queueOf := s.queueOf[t := 1])
  }

  /** scheduler_dequeue_thread; the running thread gives up the processor with its place. */
  function Dequeued(s: Sched, t: Thread, nice: Niceness): Sched
    requires Legal(s) && t in s.queueOf && (s.queueOf[t] == 0 ==> nice(t) > 0)
  {
    var level := s.queueOf[t];
    var rest := if level == 0 then s.(rounds := PriorityRounds.Remove(s.rounds, t, nice))
                else s.(ring := RemoveFirst(s.ring, t));
    rest.(force := s.force || (s.current == Some(t) && t in if level == 0 then Order(s.rounds) else s.ring))
  }

  /** The level that is looked at first, and the slice it is in. */
  function Turn(s: Sched): Sched {
    var b := if s.slice > Quantum(s.currQueue) then s.(currQueue := 1 - s.currQueue, slice := 0) else s;
    if s.force then b else b.(slice := b.slice + 1)
  }

  function Run(s: Sched, nice: Niceness): Sched
    requires Ready(s) && Level(s, s.currQueue) != []
  {
    if s.currQueue == 0 then
      var who := if s.current.Some? then s.current.value else IDLE;
      var (rounds, t) := Schedule(s.rounds, s.force, who, s.current.Some? && InPriorityLevel(s, who), nice);
      s.(rounds := rounds, current := t)
    else s.(ring := Rotate(s.ring), current := Some(s.ring[0]))
  }

  /** scheduler_shortTerm: an empty level passes its turn on; with both empty Init runs. */
  function Switched(s: Sched, nice: Niceness): Sched
    requires Ready(s)
  {
    var b := Turn(s);
    var other := b.(currQueue := 1 - b.currQueue);
    var next :=
      if Level(b, b.currQueue) != [] then Run(b, nice)
      else if Level(b, 1 - b.currQueue) != [] then Run(other, nice)
      else b.(current := Some(IDLE));
    next.(force := false)
  }

  // ---------------------------------------------- what the operations keep

  lemma EnqueueKeeps(s: Sched, t: Thread, nice: Niceness)
    requires Inv(s, nice) && t !in Runnable(s)
    requires s.current == None ==> nice(t) == 0
    ensures Inv(Enqueued(s, t, nice), nice)
    ensures forall u :: u in Runnable(Enqueued(s, t, nice)) <==> u in Runnable(s) || u == t
  {
    hide Order, PriorityRounds.Enqueue, NoDuplicates, Sorted;
    var s' := Enqueued(s, t, nice);
    if nice(t) > 0 {
      var before, after := EnqueueInserts(s.rounds, t, nice);
      var rest := after + s.ring;
      assert Runnable(s) == before + rest;
      assert Runnable(s') == before + [t] + rest;
      InsertedNoDuplicates(before, t, rest);
    } else {
      assert Runnable(s) == Runnable(s) + [];
      assert Runnable(s') == Runnable(s) + [t] + [];
      InsertedNoDuplicates(Runnable(s), t, []);
    }
  }

  /**
   Enqueueing keeps the invariant exactly for a thread that is in no queue yet and, before the first
   switch, has niceness 0.
   */
  lemma EnqueueKeepsIff(s: Sched, t: Thread, nice: Niceness)
    requires Inv(s, nice)
    ensures Inv(Enqueued(s, t, nice), nice) <==> t !in Runnable(s) && (s.current == None ==> nice(t) == 0)
  {
    hide Order, PriorityRounds.Enqueue, Sorted, Enqueued;
    if t !in Runnable(s) && (s.current == None ==> nice(t) == 0) {
      EnqueueKeeps(s, t, nice);
    } else {
      var before, after := EnqueuedAt(s, t, nice);
      if t in Runnable(s) {
        var i :| 0 <= i < |before + after| && (before + after)[i] == t;
        var r := before + [t] + after;
        assert r[if i < |before| then i else i + 1] == t && r[|before|] == t;
      }
    }
  }

  /** Where the newcomer stands among all queued threads. */
  lemma EnqueuedAt(s: Sched, t: Thread, nice: Niceness) returns (before: seq<Thread>, after: seq<Thread>)
    requires Inv(s, nice)
    ensures Runnable(s) == before + after && Legal(Enqueued(s, t, nice))
    ensures Runnable(Enqueued(s, t, nice)) == before + [t] + after
    ensures Enqueued(s, t, nice).current == s.current
    ensures nice(t) > 0 ==> Order(Enqueued(s, t, nice).rounds) != []
  {
    hide Order, PriorityRounds.Enqueue, Inv;
    InvLegal(s, nice);
    var s' := Enqueued(s, t, nice);
    if nice(t) > 0 {
      before, after := EnqueueInserts(s.rounds, t, nice);
      after := after + s.ring;
      assert Runnable(s) == before + after;
      assert Runnable(s') == before + [t] + after;
    } else {
      before, after := Runnable(s), [];
      assert Runnable(s') == before + [t] + after;
    }
  }

  lemma EnqueueLeaves(s: Sched, t: Thread, nice: Niceness)
    requires Inv(s, nice)
    ensures Legal(s) && Enqueued(s, t, nice).current == s.current
    ensures forall u :: u in Enqueued(s, t, nice).queueOf <==> u in s.queueOf || u == t
  {
    hide Order, PriorityRounds.Enqueue, NoDuplicates, Sorted;
  }

  lemma RemovedAbsent(q: seq<Thread>, t: Thread)
    requires t !in q
    ensures RemoveFirst(q, t) == q
  {
    RemoveFirstAbsent(q, t, 1);
  }

  lemma WhereQueued(s: Sched, t: Thread, nice: Niceness)
    requires Inv(s, nice) && t in s.queueOf
    ensures Legal(s) && (s.queueOf[t] == 0 <==> nice(t) > 0)
    ensures t in Runnable(s) <==> t in Level(s, if s.queueOf[t] == 0 then 0 else 1)
  {
    hide Order, NoDuplicates, Sorted;
  }

  lemma InsertedNoDuplicates(a: seq<Thread>, x: Thread, b: seq<Thread>)
    requires NoDuplicates(a + b) && x !in a + b
    ensures NoDuplicates(a + [x] + b)
  {
    var s, r := a + b, a + [x] + b;
    forall i, j | 0 <= i < j < |r|
      ensures r[i] != r[j]
    {
      assert i != |a| ==> r[i] == s[if i < |a| then i else i - 1];
      assert j != |a| ==> r[j] == s[if j < |a| then j else j - 1];
    }
  }

  lemma DequeueKeeps(s: Sched, t: Thread, nice: Niceness)
    requires Inv(s, nice) && t in s.queueOf
    ensures Inv(Dequeued(s, t, nice), nice)
    ensures Runnable(Dequeued(s, t, nice)) == RemoveFirst(Runnable(s), t)
    ensures forall u :: u in Runnable(Dequeued(s, t, nice)) <==> u in Runnable(s) && u != t
  {
    hide Order, PriorityRounds.Remove, NoDuplicates, Sorted, RemoveFirst;
    var s' := Dequeued(s, t, nice);
    var q, ring := Order(s.rounds), s.ring;
    RemoveFirstConcat(q, ring, t);
    RemoveFirstNoDuplicates(Runnable(s), t);
    if nice(t) > 0 {
      RemoveDrops(s.rounds, t, nice);
      RemovedAbsent(ring, t);
      if t !in q { RemovedAbsent(q, t); }
    } else {
      assert t !in q;
    }
    assert Runnable(s') == RemoveFirst(Runnable(s), t);
    RemoveFirstMembers(q, t);
    RemoveFirstMembers(ring, t);
  }

  /** A thread of the priority level never keeps the processor: its slice is one tick. */
  lemma PriorityLevelAlwaysPicks(s: Sched, nice: Niceness)
    requires Ready(s) && s.currQueue == 0 && Order(s.rounds) != []
    ensures var (rounds, t) := Pick(s.rounds);
            Run(s, nice) == s.(rounds := rounds, current := t)
  {
    hide Order, Pick;
  }

  lemma RunKeeps(s: Sched, nice: Niceness)
    requires Inv(s, nice) && Level(s, s.currQueue) != []
    ensures var s', level := Run(s, nice), s.currQueue;
            && Inv(s', nice) && s'.current == Some(Level(s, level)[0])
            && Level(s', level) == Rotate(Level(s, level)) && Level(s', 1 - level) == Level(s, 1 - level)
            && s' == s.(rounds := s'.rounds, ring := s'.ring, current := s'.current)
            && (forall t :: t in Runnable(s') <==> t in Runnable(s)) && s'.current.value in Runnable(s)
  {
    hide Order, Pick, Sorted, NoDuplicates, Schedule;
    var s' := Run(s, nice);
    TurnedMembers(Level(s, s.currQueue));
    if s.currQueue == 0 {
      PriorityLevelAlwaysPicks(s, nice);
      PickRotates(s.rounds);
      PickSorted(s.rounds, nice);
      assert [] + Order(s.rounds) + s.ring == Runnable(s);
      TurnedNoDuplicates([], Order(s.rounds), s.ring);
      assert [] + Rotate(Order(s.rounds)) + s.ring == Runnable(s');
    } else {
      assert Order(s.rounds) + s.ring + [] == Runnable(s);
      TurnedNoDuplicates(Order(s.rounds), s.ring, []);
      assert Order(s.rounds) + Rotate(s.ring) + [] == Runnable(s');
    }
  }

  lemma TurnedNoDuplicates(a: seq<Thread>, q: seq<Thread>, b: seq<Thread>)
    requires q != [] && NoDuplicates(a + q + b)
    ensures NoDuplicates(a + Rotate(q) + b)
    ensures forall t :: t in Rotate(q) <==> t in q
  {
    var s, r, n := a + q + b, a + Rotate(q) + b, |q|;
    assert forall i {:trigger r[i]} :: 0 <= i < |r| ==>
        r[i] == s[if |a| <= i < |a| + n - 1 then i + 1 else if i == |a| + n - 1 then |a| else i];
    assert q == [q[0]] + q[1..];
  }

  lemma TurnKeeps(s: Sched, nice: Niceness)
    requires Inv(s, nice)
    ensures var b := Turn(s);
            && Inv(b, nice) && Inv(b.(currQueue := 1 - b.currQueue), nice)
            && b == s.(currQueue := b.currQueue, slice := b.slice)
            && Runnable(b) == Runnable(s) && Runnable(b.(currQueue := 1 - b.currQueue)) == Runnable(s)
  {
    hide Order, NoDuplicates, Sorted;
  }

  lemma FlagsKeep(s: Sched, force: bool, nice: Niceness)
    requires Inv(s, nice)
    ensures var f, i := s.(force := force), s.(force := force, current := Some(IDLE));
            Inv(f, nice) && Inv(i, nice) && Runnable(f) == Runnable(i) == Runnable(s)
  {
    hide Order, NoDuplicates, Sorted;
  }

  /** The timer tick, and every forced switch, keeps the queues and what stands in them. */
  lemma SwitchKeeps(s: Sched, nice: Niceness)
    requires Inv(s, nice)
    ensures var s' := Switched(s, nice);
            && Inv(s', nice) && s'.queueOf == s.queueOf && !s'.force && s'.current.Some?
            && (forall t :: t in Runnable(s') <==> t in Runnable(s))
            && (s'.current == Some(IDLE) || s'.current.value in Runnable(s))
  {
    hide Order, Inv, Run, Turn, Runnable, Switched;
    SwitchCases(s, nice);
    TurnKeeps(s, nice);
    var b := Turn(s);
    if Level(b, b.currQueue) != [] {
      RanKeeps(b, nice);
    } else if Level(b, 1 - b.currQueue) != [] {
      RanKeeps(b.(currQueue := 1 - b.currQueue), nice);
    } else {
      FlagsKeep(b, false, nice);
    }
  }

  lemma RanKeeps(s: Sched, nice: Niceness)
    requires Inv(s, nice) && Level(s, s.currQueue) != []
    ensures var s' := Run(s, nice).(force := false);
            && Inv(s', nice) && s'.queueOf == s.queueOf && s'.current.Some?
            && (forall t :: t in Runnable(s') <==> t in Runnable(s)) && s'.current.value in Runnable(s)
  {
    InvLegal(s, nice);
    hide Order, Inv, Run, Runnable;
    RunKeeps(s, nice);
    FlagsKeep(Run(s, nice), false, nice);
  }

  lemma SwitchCases(s: Sched, nice: Niceness)
    requires Inv(s, nice)
    ensures var b := Turn(s);
            var other := b.(currQueue := 1 - b.currQueue);
            && Ready(b) && Ready(other) && Ready(s)
            && (Level(b, b.currQueue) != [] ==> Switched(s, nice) == Run(b, nice).(force := false))
            && (Level(b, b.currQueue) == [] && Level(b, 1 - b.currQueue) != [] ==>
                  Switched(s, nice) == Run(other, nice).(force := false))
            && (Level(b, b.currQueue) == [] && Level(b, 1 - b.currQueue) == [] ==>
                  Switched(s, nice) == b.(current := Some(IDLE), force := false))
  {
    hide Order, Run;
  }

  lemma InvLegal(s: Sched, nice: Niceness)
    requires Inv(s, nice)
    ensures Ready(s) && Legal(s) && Sorted(s.rounds, nice)
  {
  }

  lemma TurnedMembers(q: seq<Thread>)
    requires q != []
    ensures forall t :: t in Rotate(q) <==> t in q
  {
    assert q == [q[0]] + q[1..];
  }

  /**
   Which thread a switch runs. The turn passes to the other level when the slice is over 8 ticks at the
   priority level or over 3 at the ring; an empty level passes it on. The first thread of the level at hand
   runs and goes to the end of it, the other level waits. Only with both levels empty Init runs. A forced
   switch is not counted in the slice.
   */
  lemma SwitchRuns(s: Sched, nice: Niceness)
    requires Inv(s, nice)
    ensures Legal(s) && Legal(Switched(s, nice))
    ensures var s', over := Switched(s, nice), s.slice > (if s.currQueue == 0 then 8 else 3);
            var first := if over then 1 - s.currQueue else s.currQueue;
            var level := if Level(s, first) != [] then first else 1 - first;
            && s'.slice == (if over then 0 else s.slice) + (if s.force then 0 else 1)
            && !s'.force && s'.queueOf == s.queueOf
            && Level(s', 1 - level) == Level(s, 1 - level)
            && if Level(s, level) != []
               then s'.currQueue == level && s'.current == Some(Level(s, level)[0]) && Level(s', level) == Rotate(Level(s, level))
               else s'.currQueue == first && s'.current == Some(IDLE) && Level(s', level) == []
  {
    hide Order, Inv, Run, Turn, Switched;
    InvLegal(s, nice);
    SwitchCases(s, nice);
    TurnKeeps(s, nice);
    var b := Turn(s);
    TurnIs(s);
    if Level(b, b.currQueue) != [] {
      RunKeeps(b, nice);
      InvLegal(Run(b, nice), nice);
    } else if Level(b, 1 - b.currQueue) != [] {
      var other := b.(currQueue := 1 - b.currQueue);
      RunKeeps(other, nice);
      InvLegal(Run(other, nice), nice);
    }
  }

  lemma TurnIs(s: Sched)
    ensures var over := s.slice > (if s.currQueue == 0 then 8 else 3);
            Turn(s) == s.(currQueue := if over then 1 - s.currQueue else s.currQueue,
                          slice := (if over then 0 else s.slice) + (if s.force then 0 else 1))
  {
  }

  /**
   A thread that comes or goes does not touch the turn; the one that runs gives up the processor with its
   place, and so asks for a switch exactly if it had one.
   */
  lemma TurnStays(s: Sched, t: Thread, nice: Niceness)
    requires Inv(s, nice)
    ensures Legal(s)
    ensures var s' := Enqueued(s, t, nice);
            s'.currQueue == s.currQueue && s'.slice == s.slice && s'.force == s.force && s'.current == s.current
    ensures t in s.queueOf ==>
              && (s.queueOf[t] == 0 ==> nice(t) > 0)
              && var s' := Dequeued(s, t, nice);
                 && s'.currQueue == s.currQueue && s'.slice == s.slice && s'.current == s.current
                 && (s'.force <==> s.force || (s.current == Some(t) && t in Runnable(s)))
  {
    hide Order, NoDuplicates, Sorted, PriorityRounds.Remove, PriorityRounds.Enqueue, Runnable, RemoveFirst;
    if t in s.queueOf { WhereQueued(s, t, nice); }
  }

  // --------------------------------------------------- blocking and waking

  /** A thread that blocks: it leaves its queue, and the scheduler is forced to choose another one. */
  function Suspended(s: Sched, c: Thread, nice: Niceness): Sched
    requires Inv(s, nice) && c in s.queueOf
  {
    DequeueKeeps(s, c, nice);
    Switched(Dequeued(s, c, nice).(force := true), nice)
  }

  /** What Suspended unfolds to, and what blocking keeps: only c leaves the queues. */
  lemma SuspendKeeps(s: Sched, c: Thread, nice: Niceness)
    requires Inv(s, nice) && c in s.queueOf
    ensures Inv(Dequeued(s, c, nice), nice)
    ensures Suspended(s, c, nice) == Switched(Dequeued(s, c, nice).(force := true), nice)
    ensures var s' := Suspended(s, c, nice);
            && Inv(s', nice) && s'.queueOf == s.queueOf && s'.current.Some?
            && (forall t :: t in Runnable(s') <==> t in Runnable(s) && t != c)
            && (s'.current == Some(IDLE) || s'.current.value in Runnable(s'))
  {
    hide Inv, Dequeued, Switched, Runnable;
    WhereQueued(s, c, nice);
    DequeueKeeps(s, c, nice);
    var d := Dequeued(s, c, nice);
    DequeueLeaves(s, c, nice);
    FlagsKeep(d, true, nice);
    SwitchKeeps(d.(force := true), nice);
  }

  lemma DequeueLeaves(s: Sched, c: Thread, nice: Niceness)
    requires Inv(s, nice) && c in s.queueOf
    ensures Legal(s) && (s.queueOf[c] == 0 ==> nice(c) > 0)
    ensures Dequeued(s, c, nice).queueOf == s.queueOf && Dequeued(s, c, nice).current == s.current
  {
    hide Order, NoDuplicates, Sorted, PriorityRounds.Remove;
  }

  lemma WokenNobody(s: Sched, nice: Niceness)
    requires Inv(s, nice)
    ensures Legal(s) && Woken(s, None, nice) == s
  {
    hide Order, NoDuplicates, Sorted, PriorityRounds.Enqueue;
  }

  lemma CurrentIsKnown(s: Sched, nice: Niceness)
    requires Inv(s, nice) && s.current.Some?
    ensures s.current.value in s.queueOf
  {
    hide Sequences.NoDuplicates;
  }

  /** The thread that was let go, if any, stands in the scheduler again. */
  function Woken(s: Sched, t: Option<Thread>, nice: Niceness): Sched
    requires Legal(s)
  {
    if t == None then s else Enqueued(s, t.value, nice)
  }

  // ------------------------------------------------ the shares of the levels

  /** One timer tick that nobody forced. */
  ghost predicate Tick(s: Sched, s': Sched, nice: Niceness) {
    Inv(s, nice) && !s.force && s' == Switched(s, nice)
  }

  ghost predicate Ticking(run: seq<Sched>, nice: Niceness) {
    run != [] && forall i :: 0 <= i < |run| - 1 ==> Tick(run[i], run[i + 1], nice)
  }

  ghost predicate BothBusy(s: Sched) {
    Legal(s) && Order(s.rounds) != [] && s.ring != []
  }

  /** Where in the cycle of 13 ticks the scheduler stands; phases 0 to 8 belong to level 0. */
  function Phase(s: Sched): (p: nat)
    requires s.slice >= 0
  {
    if s.currQueue == 0 then (if s.slice == 0 then 12 else s.slice - 1)
    else if s.slice == 0 then 8
    else if s.slice <= 4 then 8 + s.slice
    else 12
  }

  /** What one tick with both levels busy does: one level turns, the other one waits. */
  ghost predicate Advanced(s: Sched, s': Sched) {
    && BothBusy(s) && BothBusy(s') && s.slice >= 0 && s'.slice >= 0
    && Phase(s') == (Phase(s) + 1) % 13
    && var level := if Phase(s') < 9 then 0 else 1;
    && s'.current == Some(Level(s, level)[0])
    && Level(s', level) == Rotate(Level(s, level))
    && Level(s', 1 - level) == Level(s, 1 - level)
  }

  lemma TickAdvances(s: Sched, s': Sched, nice: Niceness)
    requires Tick(s, s', nice) && BothBusy(s)
    ensures Advanced(s, s')
  {
    hide Order, Run, Inv, Phase, Turn, Switched;
    InvSlice(s, nice);
    TurnPhase(s);
    TurnKeeps(s, nice);
    SwitchCases(s, nice);
    RunKeeps(Turn(s), nice);
    InvLegal(Run(Turn(s), nice), nice);
    SamePhase(Turn(s), s');
  }

  lemma SamePhase(s: Sched, s': Sched)
    requires s'.currQueue == s.currQueue && s'.slice == s.slice >= 0
    ensures Phase(s') == Phase(s)
  {
  }

  lemma InvSlice(s: Sched, nice: Niceness)
    requires Inv(s, nice)
    ensures Legal(s) && 0 <= s.slice <= 9
  {
  }

  /** The level that gets its turn is the one of the next phase. */
  lemma TurnPhase(s: Sched)
    requires 0 <= s.currQueue <= 1 && 0 <= s.slice <= 9 && !s.force
    ensures var b := Turn(s);
            && b.slice >= 1 && 0 <= b.currQueue <= 1
            && Phase(b) == (Phase(s) + 1) % 13
            && (b.currQueue == if Phase(b) < 9 then 0 else 1)
  {
  }

  /** How many of the k ticks after phase p belong to level 0. */
  function Share(p: nat, k: nat): (n: nat)
    ensures n <= k
  {
    if k == 0 then 0 else Share(p, k - 1) + if (p + k) % 13 < 9 then 1 else 0
  }

  /** The phases below n that belong to level 0, in closed form. */
  function Prefix(n: nat): int {
    9 * (n / 13) + if n % 13 < 9 then n % 13 else 9
  }

  lemma PrefixStep(n: nat)
    ensures Prefix(n + 1) == Prefix(n) + if n % 13 < 9 then 1 else 0
    ensures Prefix(n + 13) == Prefix(n) + 9
  {
  }

  lemma {:induction false} ShareClosed(p: nat, k: nat)
    ensures Share(p, k) == Prefix(p + k + 1) - Prefix(p + 1)
  {
    hide Prefix;
    if k > 0 {
      ShareClosed(p, k - 1);
      PrefixStep(p + k);
    }
  }

  /** Any 13 consecutive ticks, wherever they start in the cycle, split nine to four. */
  lemma {:induction false} NineOfThirteen(p: nat, k: nat, m: nat)
    ensures Share(p, k + 13 * m) == Share(p, k) + 9 * m
  {
    hide Prefix, Share;
    if m > 0 {
      NineOfThirteen(p, k, m - 1);
      var n := k + 13 * (m - 1);
      ShareClosed(p, n);
      ShareClosed(p, n + 13);
      PrefixStep(p + n + 1);
      assert n + 13 == k + 13 * m;
    }
  }

  /** The state b that a run from s reaches after k ticks with both levels busy. */
  ghost predicate Turned(s: Sched, b: Sched, k: nat) {
    && BothBusy(s) && BothBusy(b) && s.slice >= 0 && b.slice >= 0
    && var n := Share(Phase(s), k);
    && Phase(b) == (Phase(s) + k) % 13
    && Order(b.rounds) == RotateBy(Order(s.rounds), n)
    && b.ring == RotateBy(s.ring, k - n)
  }

  lemma TurnedStep(s: Sched, b: Sched, c: Sched, k: nat)
    requires Turned(s, b, k) && Advanced(b, c)
    ensures Turned(s, c, k + 1)
  {
    hide Order, Phase, RotateBy, Rotate, Share;
    PhaseStep(Phase(s), k);
    ShareStep(Phase(s), k);
    var n := Share(Phase(s), k);
    RotateByStep(Order(s.rounds), n);
    RotateByStep(s.ring, k - n);
  }

  lemma ShareStep(p: nat, k: nat)
    ensures Share(p, k + 1) == Share(p, k) + if (p + k + 1) % 13 < 9 then 1 else 0
  {
  }

  lemma RotateByStep(q: seq<Thread>, n: nat)
    requires q != []
    ensures RotateBy(q, n + 1) == Rotate(RotateBy(q, n))
  {
  }

  lemma PhaseStep(p: nat, k: nat)
    ensures ((p + k) % 13 + 1) % 13 == (p + k + 1) % 13
  {
  }

  /** While both levels are busy, each is a queue that turns once in every tick of its own. */
  lemma {:induction false} TicksRotate(run: seq<Sched>, k: nat, nice: Niceness)
    requires Ticking(run, nice) && k < |run| && |run| > 1 && BothBusy(run[0])
    ensures run[0].slice >= 0 && Turned(run[0], run[k], k)
  {
    hide Order, Tick, Turned, Advanced;
    if k > 0 {
      TicksRotate(run, k - 1, nice);
      assert BothBusy(run[k - 1]) by { TurnedBusy(run[0], run[k - 1], k - 1); }
      TickAdvances(run[k - 1], run[k], nice);
      TurnedStep(run[0], run[k - 1], run[k], k - 1);
    } else {
      NotTurned(run[0], run[1], nice);
    }
  }

  lemma NotTurned(s: Sched, s': Sched, nice: Niceness)
    requires Tick(s, s', nice) && BothBusy(s)
    ensures s.slice >= 0 && Turned(s, s, 0)
  {
    hide Order, Switched, Sorted, NoDuplicates;
  }

  lemma TurnedBusy(s: Sched, b: Sched, k: nat)
    requires Turned(s, b, k)
    ensures s.slice >= 0 && BothBusy(b)
  {
  }

  /**
   Nine to four: from any state that a run can reach, any 13 consecutive ticks with both levels busy
   turn the priority level nine times and the ring four times.
   */
  lemma ThirteenTicks(run: seq<Sched>, nice: Niceness)
    requires Ticking(run, nice) && |run| == 14 && BothBusy(run[0])
    ensures BothBusy(run[13])
    ensures Order(run[13].rounds) == RotateBy(Order(run[0].rounds), 9)
    ensures run[13].ring == RotateBy(run[0].ring, 4)
  {
    hide Order, Tick;
    TicksRotate(run, 13, nice);
    NineOfThirteen(Phase(run[0]), 0, 1);
  }

  // ------------------------------------- the shares with forced switches between

  /** What happens between two states: a tick, a forced switch, or a thread that comes or goes. */
  datatype Act = Ticked | Forced | Enters(t: Thread) | Leaves(t: Thread)

  ghost predicate Acted(s: Sched, a: Act, s': Sched, nice: Niceness) {
    && Inv(s, nice)
    && match a
       case Ticked => BothBusy(s) && Tick(s, s', nice)
       case Forced => BothBusy(s) && s' == Switched(s.(force := true), nice)
       case Enters(t) => t !in Runnable(s) && (s.current == None ==> nice(t) == 0) && s' == Enqueued(s, t, nice)
       case Leaves(t) => t in s.queueOf && (s.queueOf[t] == 0 ==> nice(t) > 0) && s' == Dequeued(s, t, nice)
  }

  ghost predicate Acting(run: seq<Sched>, acts: seq<Act>, nice: Niceness) {
    && |run| == |acts| + 1
    && (forall i :: 0 <= i < |acts| ==> Acted(run[i], acts[i], run[i + 1], nice))
  }

  /** How many of the first k acts are ticks. */
  function TicksIn(acts: seq<Act>, k: nat): (n: nat)
    requires k <= |acts|
  {
    if k == 0 then 0 else TicksIn(acts, k - 1) + if acts[k - 1].Ticked? then 1 else 0
  }

  /** The first thread of the priority level runs. */
  ghost predicate PriorityRuns(s: Sched, s': Sched) {
    Legal(s) && Order(s.rounds) != [] && s'.current == Some(Order(s.rounds)[0])
  }

  /** In how many of the ticks among the first k acts a thread of the priority level got to run. */
  ghost function PriorityTicks(run: seq<Sched>, acts: seq<Act>, k: nat): (n: nat)
    requires k <= |acts| < |run|
  {
    if k == 0 then 0
    else PriorityTicks(run, acts, k - 1) + if acts[k - 1].Ticked? && PriorityRuns(run[k - 1], run[k]) then 1 else 0
  }

  /** A forced switch keeps the phase and runs the first thread of one level; the other level waits. */
  lemma ForcedKeepsPhase(s: Sched, s': Sched, nice: Niceness)
    requires Acted(s, Forced, s', nice)
    ensures s.slice >= 0 && s'.slice >= 0 && Phase(s') == Phase(s)
    ensures var level := if s.slice <= (if s.currQueue == 0 then 8 else 3) then s.currQueue else 1 - s.currQueue;
            && BothBusy(s') && s'.current == Some(Level(s, level)[0])
            && Level(s', level) == Rotate(Level(s, level)) && Level(s', 1 - level) == Level(s, 1 - level)
  {
    hide Order, Switched, NoDuplicates, Sorted;
    FlagsKeep(s, true, nice);
    SwitchRuns(s.(force := true), nice);
  }

  /** One act: only a tick moves the phase on, and it runs the level of the phase. */
  lemma ActKeepsShare(s: Sched, a: Act, s': Sched, nice: Niceness)
    requires Acted(s, a, s', nice)
    ensures 0 <= s.slice <= 9 && s'.slice >= 0
    ensures !a.Ticked? ==> Phase(s') == Phase(s)
    ensures a.Ticked? ==> Phase(s') == (Phase(s) + 1) % 13 && (PriorityRuns(s, s') <==> Phase(s') < 9)
  {
    hide Order, Inv, Phase, Runnable, Enqueued, Dequeued, Switched;
    InvSlice(s, nice);
    match a
    case Ticked => TickAdvances(s, s', nice); HeadsDiffer(s, nice);
    case Forced => ForcedKeepsPhase(s, s', nice);
    case Enters(t) => TurnStays(s, t, nice); SamePhase(s, s');
    case Leaves(t) => TurnStays(s, t, nice); SamePhase(s, s');
  }

  lemma HeadsDiffer(s: Sched, nice: Niceness)
    requires Inv(s, nice) && BothBusy(s)
    ensures Order(s.rounds)[0] != s.ring[0]
  {
    hide Order, Sorted;
    var q := Order(s.rounds);
    assert Runnable(s)[0] == q[0] && Runnable(s)[|q|] == s.ring[0];
  }

  /**
   Whatever blocks, wakes up or forces a switch in between: of the ticks with both levels busy the
   priority level gets those that the cycle of 13 phases gives it.
   */
  lemma {:induction false} TicksAreShared(run: seq<Sched>, acts: seq<Act>, k: nat, nice: Niceness)
    requires Acting(run, acts, nice) && 0 < |acts| && k <= |acts|
    ensures run[0].slice >= 0 && run[k].slice >= 0
    ensures Phase(run[k]) == (Phase(run[0]) + TicksIn(acts, k)) % 13
    ensures PriorityTicks(run, acts, k) == Share(Phase(run[0]), TicksIn(acts, k))
  {
    hide Phase, Acted, Share, PriorityRuns;
    if k == 0 {
      ActKeepsShare(run[0], acts[0], run[1], nice);
      PhaseInCycle(run[0]);
      ShareOfNone(Phase(run[0]));
    } else {
      TicksAreShared(run, acts, k - 1, nice);
      ActKeepsShare(run[k - 1], acts[k - 1], run[k], nice);
      var n := TicksIn(acts, k - 1);
      PhaseStep(Phase(run[0]), n);
      ShareStep(Phase(run[0]), n);
    }
  }

  lemma PhaseInCycle(s: Sched)
    requires 0 <= s.slice <= 9
    ensures Phase(s) < 13
  {
  }

  lemma ShareOfNone(p: nat)
    ensures Share(p, 0) == 0
  {
  }

  /** Nine to four, on any run: thirteen ticks with both levels busy, with any forced switches between them. */
  lemma NineOfThirteenTicks(run: seq<Sched>, acts: seq<Act>, m: nat, nice: Niceness)
    requires Acting(run, acts, nice) && 0 < |acts| && TicksIn(acts, |acts|) == 13 * m
    ensures PriorityTicks(run, acts, |acts|) == 9 * m
  {
    hide Phase, Acted, Share, PriorityTicks;
    TicksAreShared(run, acts, |acts|, nice);
    NineOfThirteen(Phase(run[0]), 0, m);
    ShareOfNone(Phase(run[0]));
  }

  /** The tick in which level 0 gets its turn number i, if k ticks hold more than i of them. */
  lemma {:induction false} TurnInTicks(p: nat, k: nat, i: nat) returns (j: nat)
    requires Share(p, k) > i
    ensures j < k && Share(p, j) == i && Share(p, j + 1) == i + 1
  {
    if Share(p, k - 1) > i {
      j := TurnInTicks(p, k - 1, i);
    } else {
      j := k - 1;
    }
  }

  lemma {:induction false} RingTurnInTicks(p: nat, k: nat, i: nat) returns (j: nat)
    requires k - Share(p, k) > i
    ensures j < k && j - Share(p, j) == i && Share(p, j + 1) == Share(p, j)
  {
    if k - 1 - Share(p, k - 1) > i {
      j := RingTurnInTicks(p, k - 1, i);
    } else {
      j := k - 1;
    }
  }

  /** The level whose turn it is after k ticks runs its thread at the place that k ticks reach. */
  lemma WhoRuns(s: Sched, b: Sched, c: Sched, k: nat)
    requires Turned(s, b, k) && Advanced(b, c)
    ensures var n := Share(Phase(s), k);
            if Share(Phase(s), k + 1) > n
            then (n < |Order(s.rounds)| ==> c.current == Some(Order(s.rounds)[n]))
            else (k - n < |s.ring| ==> c.current == Some(s.ring[k - n]))
  {
    hide Order, Phase;
    PhaseStep(Phase(s), k);
    var n := Share(Phase(s), k);
    if n <= |Order(s.rounds)| { RotateByCut(Order(s.rounds), n); }
    if k - n <= |s.ring| { RotateByCut(s.ring, k - n); }
  }

  lemma RunsAt(run: seq<Sched>, k: nat, nice: Niceness)
    requires Ticking(run, nice) && k + 1 < |run| && BothBusy(run[0])
    ensures run[0].slice >= 0 && Turned(run[0], run[k], k) && Advanced(run[k], run[k + 1])
  {
    hide Order, Tick, Turned, Advanced;
    TicksRotate(run, k, nice);
    TurnedBusy(run[0], run[k], k);
    TickAdvances(run[k], run[k + 1], nice);
  }

  /** Bounded waiting in the priority level: thirteen ticks for every nine threads, rounded up. */
  lemma PriorityThreadRuns(run: seq<Sched>, i: nat, m: nat, nice: Niceness) returns (j: nat)
    requires Ticking(run, nice) && BothBusy(run[0]) && |run| > 13 * m
    requires i < |Order(run[0].rounds)| <= 9 * m
    ensures 0 < j <= 13 * m && run[j].current == Some(Order(run[0].rounds)[i])
  {
    hide Order, Tick, Turned, Advanced;
    RunsAt(run, 0, nice);
    var p := Phase(run[0]);
    NineOfThirteen(p, 0, m);
    var k := TurnInTicks(p, 13 * m, i);
    RunsAt(run, k, nice);
    WhoRuns(run[0], run[k], run[k + 1], k);
    j := k + 1;
  }

  /** Bounded waiting in the ring: thirteen ticks for every four threads, rounded up. */
  lemma RingThreadRuns(run: seq<Sched>, i: nat, m: nat, nice: Niceness) returns (j: nat)
    requires Ticking(run, nice) && BothBusy(run[0]) && |run| > 13 * m
    requires i < |run[0].ring| <= 4 * m
    ensures 0 < j <= 13 * m && run[j].current == Some(run[0].ring[i])
  {
    hide Order, Tick, Turned, Advanced;
    RunsAt(run, 0, nice);
    var p := Phase(run[0]);
    NineOfThirteen(p, 0, m);
    var k := RingTurnInTicks(p, 13 * m, i);
    RunsAt(run, k, nice);
    WhoRuns(run[0], run[k], run[k + 1], k);
    j := k + 1;
  }

  // ------------------------------------------------------------ scheduler.c

  class KernelScheduler {
    const nice: Niceness
    const priorityLevel: PriorityQueue  // Queues[0]
    const ringLevel: RingQueue          // Queues[1]
    var queueOf: map<Thread, int>
    var currQueue: int
    var currTimeSlice: int
    var force: bool
    var current: Option<Thread>

    ghost function State(): Sched
      reads this, priorityLevel, ringLevel
    {
      Sched(priorityLevel.State(), ringLevel.queue, queueOf, currQueue, currTimeSlice, force, current)
    }

    ghost predicate Valid()
      reads this, priorityLevel, ringLevel
    {
      priorityLevel.Valid() && ringLevel.Valid() && priorityLevel.nice == nice && Inv(State(), nice)
    }

    /** scheduler_init; the control block of Init is there, its thread is not queued yet. */
    constructor (nice: Niceness)
      requires nice(IDLE) == 0
      ensures Valid() && this.nice == nice && Runnable(State()) == [] && current == None
      ensures fresh(priorityLevel) && fresh(ringLevel)
    {
      this.nice := nice;
      ringLevel := new RingQueue();
      priorityLevel := new PriorityQueue(nice);
      queueOf := map[IDLE := 1];
      currQueue, currTimeSlice, force, current := 0, 0, false, None;
    }

    method Enqueue(t: Thread)
      requires Valid()
      modifies this, priorityLevel, ringLevel
      ensures State() == Enqueued(old(State()), t, nice) && priorityLevel.Valid() && ringLevel.Valid()
      ensures Valid() <==> t !in Runnable(old(State())) && (old(current) == None ==> nice(t) == 0)
    {
      hide Inv, Order, PriorityRounds.Enqueue, Runnable, Sorted;
      ghost var was := State();
      InvLegal(was, nice);
      EnqueueKeepsIff(was, t, nice);
      queueOf := queueOf[t := 0];
      var forward := priorityLevel.EnqueueThread(t);
      if forward {
        queueOf := queueOf[t := 1];
        ringLevel.EnqueueThread(t);
      }
      assert State() == Enqueued(was, t, nice);
    }

    method DequeueThread(t: Thread) returns (removed: bool)
      requires Valid() && t in queueOf
      modifies this, priorityLevel, ringLevel
      ensures Valid() && State() == Dequeued(old(State()), t, nice)
      ensures removed == (t in Runnable(old(State())))
    {
      hide Inv, Order, PriorityRounds.Remove, RemoveFirst, Sorted, Runnable;
      DequeueKeeps(State(), t, nice);
      WhereQueued(State(), t, nice);
      var n;
      if queueOf[t] == 0 {
        n := priorityLevel.RemoveThread(t);
      } else {
        n := ringLevel.RemoveThread(t);
      }
      removed := n >= 1;
      if current == Some(t) && removed {
        force := true;
      }
    }

    /** Queues[currQueue]->queueSchedule. */
    method QueueSchedule() returns (t: Option<Thread>)
      requires Valid()
      modifies priorityLevel, ringLevel
      ensures priorityLevel.Valid() && ringLevel.Valid()
      ensures t == None <==> Level(old(State()), currQueue) == []
      ensures t == None ==> State() == old(State())
      ensures t != None ==> State().(current := t) == Run(old(State()), nice)
    {
      if currQueue == 0 {
        var who := if current.Some? then current.value else IDLE;
        hide Sorted, NoDuplicates, Pick;
        if priorityLevel.threadCount > 0 { PickRotates(priorityLevel.State()); }
        hide Order;
        t := priorityLevel.QueueSchedule(force, who, current.Some? && who in queueOf && queueOf[who] == 0);
      } else {
        t := ringLevel.QueueSchedule();
      }
    }

    /** The part of scheduler_shortTerm that counts the slice and hands the turn over. */
    method TakeTurn()
      requires Valid()
      modifies this
      ensures Valid() && State() == Turn(old(State()))
      ensures var over := old(currTimeSlice) > (if old(currQueue) == 0 then 8 else 3);
              && currQueue == (if over then 1 - old(currQueue) else old(currQueue))
              && currTimeSlice == (if over then 0 else old(currTimeSlice)) + (if old(force) then 0 else 1)
    {
      ghost var was := State();
      hide Inv, Order, Runnable, Turn, Sorted, Shaped, NoDuplicates;
      TurnKeeps(was, nice);
      InvLegal(was, nice);
      TurnIs(was);
      if currTimeSlice > Quantum(currQueue) {
        currQueue := if currQueue == 1 then 0 else currQueue + 1;
        currTimeSlice := 0;
      }
      if !force {
        currTimeSlice := currTimeSlice + 1;
      }
      assert State() == Turn(was);
    }

    /** scheduler_shortTerm, from the point where some process is known to be alive. */
    method ShortTerm()
      requires Valid()
      modifies this, priorityLevel, ringLevel
      ensures Valid() && State() == Switched(old(State()), nice)
    {
      hide Inv, Run, Order, Runnable, Sorted, Switched, Turn;
      ghost var was, b := State(), Turn(State());
      InvLegal(was, nice);
      SwitchKeeps(was, nice);
      TurnKeeps(was, nice);
      SwitchCases(was, nice);
      TakeTurn();
      var t: Option<Thread> := None;
      var i := 0;
      while i < 2 && t == None
        invariant 0 <= i <= 2
        invariant t == None ==> State() == if i == 1 then b.(currQueue := 1 - b.currQueue) else b
        invariant t == None && i >= 1 ==> Level(b, b.currQueue) == []
        invariant t == None && i == 2 ==> Level(b, 1 - b.currQueue) == []
        invariant t == None ==> Valid()
        invariant t != None ==> priorityLevel.Valid() && ringLevel.Valid()
        invariant t != None ==> State().(current := t, force := false) == Switched(was, nice)
        decreases t == None, 2 - i
      {
        t := QueueSchedule();
        if t == None {
          currQueue := if currQueue == 1 then 0 else currQueue + 1;
        }
        i := i + 1;
      }
      current := if t.Some? then t else Some(IDLE);
      force := false;
    }

    /** _force_scheduler: the switch that a blocked thread asks for. */
    method ForceScheduler()
      requires Valid()
      modifies this, priorityLevel, ringLevel
      ensures Valid() && State() == Switched(old(State()).(force := true), nice)
      ensures currTimeSlice == if old(currTimeSlice) > (if old(currQueue) == 0 then 8 else 3) then 0 else old(currTimeSlice)
      ensures !force && current.Some? && (current == Some(IDLE) || current.value in old(Runnable(State())))
    {
      hide Inv, Switched, Order, Runnable, Sorted;
      FlagsKeep(State(), true, nice);
      SwitchRuns(State().(force := true), nice);
      SwitchKeeps(State().(force := true), nice);
      force := true;
      ShortTerm();
    }
  }
}
