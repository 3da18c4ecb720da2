/**
 Userland/SampleCodeModule/programs/upDown.c: threads that raise or lower one global variable under a
 mutex. The increment is a load and a store, and the threads interleave at every step.
 */
module UpDown {
  import opened Sequences
  import opened Options
  import opened Threads
  import opened Mutex

  /**
   Where a thread is in its loop. A waiting thread that gets the mutex is `Handed` it first; it goes on
   inside when the scheduler runs it again.
   */
  datatype Pc = Outside | Waiting | Handed | Holding | Loaded(v: int) | Stored

  /** A thread that adds delta to the global in every round; up has delta 1, down has delta -1. */
  datatype Worker = Worker(delta: int, done: nat, left: nat, pc: Pc)

  /** workers[i] is what thread names[i] does. */
  datatype State = State(m: MutexState, global: int, names: seq<Thread>, workers: seq<Worker>)

  predicate Enabled(s: State, i: nat) {
    && i < |s.workers| == |s.names|
    && s.workers[i].pc != Waiting && !(s.workers[i].pc == Outside && s.workers[i].left == 0)
  }

  /** A thread that was handed the mutex goes on when it runs next. */
  function Hand(ws: seq<Worker>, names: seq<Thread>, t: Option<Thread>): (r: seq<Worker>)
    requires |ws| == |names|
    ensures |r| == |ws|
    ensures forall i :: 0 <= i < |ws| ==> r[i] == if t == Some(names[i]) then ws[i].(pc := Handed) else ws[i]
  {
    seq(|ws|, i requires 0 <= i < |ws| => if t == Some(names[i]) then ws[i].(pc := Handed) else ws[i])
  }

  /** The next thing that thread i does. */
  function Step(s: State, i: nat): (r: State)
    requires Enabled(s, i)
    ensures r.names == s.names && |r.workers| == |s.workers|
  {
    var w, me := s.workers[i], s.names[i];
    match w.pc
    case Outside =>
      var (m, got) := Acquire(s.m, me);
      s.(m := m, workers := s.workers[i := w.(pc := if got then Holding else Waiting)])
    case Handed => s.(workers := s.workers[i := w.(pc := Holding)])
    case Holding => s.(workers := s.workers[i := w.(pc := Loaded(s.global))])
    case Loaded(v) => s.(global := v + w.delta, workers := s.workers[i := w.(pc := Stored)])
    case Stored =>
      var (m, woken) := Release(s.m, me, {});
      var home := w.(pc := Outside, done := w.done + 1, left := if w.left > 0 then w.left - 1 else 0);
      s.(m := m, workers := Hand(s.workers[i := home], s.names, woken))
  }

  predicate Critical(w: Worker) {
    w.pc != Outside && w.pc != Waiting
  }

  /** What a thread has added so far. */
  function Gain(w: Worker): int {
    w.delta * (w.done + if w.pc == Stored then 1 else 0)
  }

  function Gains(ws: seq<Worker>): seq<int> {
    seq(|ws|, i requires 0 <= i < |ws| => Gain(ws[i]))
  }

  /** The mutex agrees with where the threads are, and a value that was loaded is still current. */
  ghost predicate Agreed(s: State) {
    && Sane(s.m) && NoDuplicates(s.m.queue) && NoDuplicates(s.names) && |s.workers| == |s.names|
    && (forall i :: 0 <= i < |s.workers| ==> (Critical(s.workers[i]) <==> Inside(s.m) == Some(s.names[i])))
    && (forall i :: 0 <= i < |s.workers| ==> (s.workers[i].pc == Waiting <==> s.names[i] in s.m.queue))
    && (forall t :: t in s.m.queue ==> t in s.names)
    && (Inside(s.m).Some? ==> Inside(s.m).value in s.names)
    && (forall i :: 0 <= i < |s.workers| && s.workers[i].pc.Loaded? ==> s.workers[i].pc.v == s.global)
    && (forall i :: 0 <= i < |s.workers| && s.workers[i].pc != Outside ==> s.workers[i].left > 0)
  }

  /** No addition is lost: the global is what it was plus all that the threads have added. */
  ghost predicate Kept(s: State, start: int) {
    Agreed(s) && s.global == start + Sum(Gains(s.workers))
  }

  /** At most one thread is between lock and unlock. */
  lemma OneInside(s: State, i: nat, j: nat)
    requires Agreed(s) && i < |s.workers| && j < |s.workers| && Critical(s.workers[i]) && Critical(s.workers[j])
    ensures i == j
  {
  }

  lemma EntersAgrees(s: State, i: nat)
    requires Agreed(s) && Enabled(s, i) && s.workers[i].pc == Outside
    ensures Agreed(Step(s, i))
  {
    hide Acquire, Sane, Inside;
    AcquireExcludes(s.m, s.names[i]);
    NoDuplicatesEnds(s.m.queue, s.names[i]);
    NobodyWaits(s.m);
  }

  lemma InsideAgrees(s: State, i: nat)
    requires Agreed(s) && Enabled(s, i) && s.workers[i].pc != Outside && s.workers[i].pc != Stored
    ensures Agreed(Step(s, i))
  {
    hide Sane, Inside;
  }

  lemma LeavesAgrees(s: State, i: nat)
    requires Agreed(s) && Enabled(s, i) && s.workers[i].pc == Stored
    ensures Agreed(Step(s, i))
  {
    hide Sane, Inside, Release, Taken;
    var me := s.names[i];
    ReleaseHandsOver(s.m, me, {});
    NoDuplicatesParts(Taken(s.m, me, {}), Release(s.m, me, {}).0.queue);
    TakenIsWoken(s.m, me);
    assert forall j :: 0 <= j < |s.names| && j != i ==> s.names[j] != me;
  }

  /** With nobody dead, an unlock takes just the first waiter out of the queue. */
  lemma TakenIsWoken(m: MutexState, c: Thread)
    requires Sane(m)
    ensures forall t :: t in Taken(m, c, {}) <==> Release(m, c, {}).1 == Some(t)
    ensures Inside(m) == Some(c) ==> m.owner == Some(c)
  {
    ReleaseHandsOver(m, c, {});
  }

  // ------------------------------------------------------------- nothing is lost

  lemma HandKeepsGains(ws: seq<Worker>, names: seq<Thread>, t: Option<Thread>)
    requires |ws| == |names|
    requires forall i :: 0 <= i < |ws| && t == Some(names[i]) ==> ws[i].pc == Waiting
    ensures Gains(Hand(ws, names, t)) == Gains(ws)
  {
  }

  lemma StepAdds(s: State, i: nat)
    requires Agreed(s) && Enabled(s, i)
    ensures Sum(Gains(Step(s, i).workers)) - Sum(Gains(s.workers)) == Step(s, i).global - s.global
  {
    hide Sane, Inside, Release, Acquire, Sum, Gain;
    var w, w' := s.workers[i], Step(s, i).workers[i];
    GainStep(s, i);
    SumUpdate(Gains(s.workers), i, Gain(w'));
    if w.pc == Stored {
      ReleaseHandsOver(s.m, s.names[i], {});
      TakenIsWoken(s.m, s.names[i]);
      var woken := Release(s.m, s.names[i], {}).1;
      assert woken != Some(s.names[i]);
      HandKeepsGains(s.workers[i := w'], s.names, woken);
      assert Gains(s.workers[i := w']) == Gains(s.workers)[i := Gain(w')];
    } else {
      assert Gains(Step(s, i).workers) == Gains(s.workers)[i := Gain(w')];
    }
  }

  lemma GainStep(s: State, i: nat)
    requires Agreed(s) && Enabled(s, i)
    ensures Gain(Step(s, i).workers[i]) == Gain(s.workers[i]) + Step(s, i).global - s.global
  {
    hide Sane, Inside, Release, Acquire;
    ReleaseHandsOver(s.m, s.names[i], {});
    TakenIsWoken(s.m, s.names[i]);
  }

  // ------------------------------------------------------------------ whole runs

  /** The threads take steps in the order of the list, one thread index a step. */
  ghost predicate Runs(s: State, steps: seq<nat>, t: State)
    decreases steps
  {
    if steps == [] then t == s else Enabled(s, steps[0]) && Runs(Step(s, steps[0]), steps[1..], t)
  }

  /** The threads were created and none has run yet. */
  ghost predicate Started(s: State) {
    && s.m == UNLOCKED && NoDuplicates(s.names) && |s.workers| == |s.names|
    && forall i :: 0 <= i < |s.workers| ==> s.workers[i].pc == Outside && s.workers[i].done == 0
  }

  ghost predicate Finished(s: State) {
    forall i :: 0 <= i < |s.workers| ==> s.workers[i].pc == Outside && s.workers[i].left == 0
  }

  /** What a thread adds in all its rounds together. */
  function Owed(ws: seq<Worker>): seq<int> {
    seq(|ws|, i requires 0 <= i < |ws| => ws[i].delta * (ws[i].done + ws[i].left))
  }

  /** How many steps a thread can still take. */
  function Work(w: Worker): int {
    6 * w.left - match w.pc
                 case Outside => 0
                 case Waiting => 1
                 case Handed => 2
                 case Holding => 3
                 case Loaded(_) => 4
                 case Stored => 5
  }

  function Works(ws: seq<Worker>): seq<int> {
    seq(|ws|, i requires 0 <= i < |ws| => Work(ws[i]))
  }

  lemma StepKeeps(s: State, i: nat)
    requires Agreed(s) && Enabled(s, i)
    ensures Agreed(Step(s, i)) && Owed(Step(s, i).workers) == Owed(s.workers)
  {
    hide Agreed, Release, Acquire;
    OwedStep(s, i);
    if s.workers[i].pc == Outside { EntersAgrees(s, i); }
    else if s.workers[i].pc == Stored { LeavesAgrees(s, i); }
    else { InsideAgrees(s, i); }
  }

  lemma OwedStep(s: State, i: nat)
    requires Agreed(s) && Enabled(s, i)
    ensures Owed(Step(s, i).workers) == Owed(s.workers)
  {
    hide Sane, Inside, Release, Acquire, NoDuplicates;
    ReleaseHandsOver(s.m, s.names[i], {});
    TakenIsWoken(s.m, s.names[i]);
  }

  /** Every step brings the end closer. */
  lemma StepWorks(s: State, i: nat)
    requires Agreed(s) && Enabled(s, i)
    ensures Sum(Works(Step(s, i).workers)) < Sum(Works(s.workers))
  {
    hide Agreed, Sum, Work, Release, Acquire;
    WorkOfOthers(s, i);
    SumBelow(Works(Step(s, i).workers), Works(s.workers), i);
  }

  lemma WorkOfOthers(s: State, i: nat)
    requires Agreed(s) && Enabled(s, i)
    ensures Work(Step(s, i).workers[i]) < Work(s.workers[i])
    ensures forall j :: 0 <= j < |s.workers| ==> Work(Step(s, i).workers[j]) <= Work(s.workers[j])
  {
    hide Sane, Inside, Release, Acquire, NoDuplicates;
    ReleaseHandsOver(s.m, s.names[i], {});
    TakenIsWoken(s.m, s.names[i]);
  }

  lemma {:induction false} SumBelow(a: seq<int>, b: seq<int>, i: nat)
    requires |a| == |b| && i < |a| && a[i] < b[i] && forall j :: 0 <= j < |a| ==> a[j] <= b[j]
    ensures Sum(a) < Sum(b)
    decreases a
  {
    if i > 0 {
      SumBelow(a[1..], b[1..], i - 1);
    } else {
      SumAtMost(a[1..], b[1..]);
    }
  }

  /**
   On every run, whatever the interleaving: mutual exclusion holds, the global is its start value plus
   what the threads have added, and no run is longer than the work there was.
   */
  lemma {:induction false} RunsKeep(s: State, steps: seq<nat>, t: State, start: int)
    requires Kept(s, start) && Runs(s, steps, t)
    ensures Kept(t, start) && Owed(t.workers) == Owed(s.workers)
    ensures |steps| + Sum(Works(t.workers)) <= Sum(Works(s.workers))
    decreases steps
  {
    hide Agreed, Step, Enabled, Gains, Works, Owed, Sum;
    if steps != [] {
      var i := steps[0];
      StepKeeps(s, i);
      StepAdds(s, i);
      StepWorks(s, i);
      RunsKeep(Step(s, i), steps[1..], t, start);
    }
  }

  /** No deadlock: as long as a thread has something to do, some thread can do it. */
  lemma SomeoneGoesOn(s: State)
    requires Agreed(s) && !Finished(s)
    ensures exists i :: Enabled(s, i)
  {
    hide Sane, NoDuplicates;
    var i :| 0 <= i < |s.workers| && !(s.workers[i].pc == Outside && s.workers[i].left == 0);
    if s.workers[i].pc == Waiting {
      assert s.names[i] in s.m.queue;
      NobodyWaits(s.m);
      var j :| 0 <= j < |s.names| && s.names[j] == Inside(s.m).value;
      assert Critical(s.workers[j]);
      assert Enabled(s, j);
    } else {
      assert Enabled(s, i);
    }
  }

  lemma StartIsKept(s: State)
    requires Started(s)
    ensures Kept(s, s.global)
  {
    ZeroSum(Gains(s.workers));
  }

  lemma {:induction false} ZeroSum(a: seq<int>)
    requires forall i :: 0 <= i < |a| ==> a[i] == 0
    ensures Sum(a) == 0
    decreases a
  {
    if a != [] {
      ZeroSum(a[1..]);
    }
  }

  /**
   The result: a run of any number of threads that cannot go on has finished, and then the global is
   what it was plus everything the threads had to add.
   */
  lemma GlobalIsExact(s: State, steps: seq<nat>, t: State)
    requires Started(s) && Runs(s, steps, t)
    ensures |steps| <= Sum(Works(s.workers))
    ensures (forall i :: !Enabled(t, i)) ==> Finished(t)
    ensures Finished(t) ==> t.global == s.global + Sum(Owed(s.workers))
  {
    hide Sum, Runs, Enabled;
    StartIsKept(s);
    RunsKeep(s, steps, t, s.global);
    if !Finished(t) {
      SomeoneGoesOn(t);
    } else {
      assert Gains(t.workers) == Owed(t.workers);
    }
    WorkIsNatural(t);
    SumNonNegative(Works(t.workers));
  }

  lemma WorkIsNatural(s: State)
    requires Agreed(s)
    ensures forall x :: x in Works(s.workers) ==> x >= 0
  {
    hide Sane, NoDuplicates, Inside;
  }

  /** The rounds of the threads that add delta. */
  function Rounds(ws: seq<Worker>, delta: int): nat
    decreases ws
  {
    if ws == [] then 0
    else (if ws[0].delta == delta then ws[0].done + ws[0].left else 0) + Rounds(ws[1..], delta)
  }

  /** With threads that count up or down by one, the global rises by the ups and falls by the downs. */
  lemma {:induction false} UpsAndDowns(ws: seq<Worker>, up: int, down: int)
    requires up == 1 && down == -1
    requires forall i :: 0 <= i < |ws| ==> ws[i].delta == up || ws[i].delta == down
    ensures Sum(Owed(ws)) == Rounds(ws, up) - Rounds(ws, down)
    decreases ws
  {
    if ws != [] {
      UpsAndDowns(ws[1..], up, down);
      assert Owed(ws)[1..] == Owed(ws[1..]);
    }
  }

  /** Any number of threads that count up and down end with the global at start + ups - downs. */
  lemma EndsAtStartPlusUpsMinusDowns(s: State, steps: seq<nat>, t: State, up: int, down: int)
    requires Started(s) && Runs(s, steps, t) && up == 1 && down == -1
    requires forall i :: 0 <= i < |s.workers| ==> s.workers[i].delta == up || s.workers[i].delta == down
    requires forall i :: !Enabled(t, i)
    ensures t.global == s.global + Rounds(s.workers, up) - Rounds(s.workers, down)
  {
    hide Runs, Enabled, Sum, Owed;
    GlobalIsExact(s, steps, t);
    UpsAndDowns(s.workers, up, down);
  }
}
