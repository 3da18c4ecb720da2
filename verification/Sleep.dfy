/** Kernel/sleep.c: the list of sleeping threads, cut down by one tick at every timer interrupt. */
module Sleep {
  import opened Sequences
  import opened Options
  import opened Threads
  import opened Scheduler
  import opened Mutex

  const PIT_FREQUENCY := 100

  datatype Sleeper = Sleeper(t: Thread, ticks: int)

  /** Division of int in C: it truncates towards zero. */
  function Quotient(a: int, b: int): int
    requires b > 0
  {
    if a >= 0 then a / b else -(-a / b)
  }

  function Ticks(millis: int): int {
    var n := Quotient(millis * PIT_FREQUENCY, 1000);
    if n > 0 then n else 1
  }

  /** Whoever sleeps has at least one tick to wait for. */
  ghost predicate Timed(l: seq<Sleeper>) {
    forall x :: x in l ==> x.ticks >= 1
  }

  function Names(l: seq<Sleeper>): (r: seq<Thread>)
    ensures |r| == |l| && forall i :: 0 <= i < |l| ==> r[i] == l[i].t
  {
    seq(|l|, i requires 0 <= i < |l| => l[i].t)
  }

  /** The same entry one tick later, and one tick earlier. */
  function Later(x: Sleeper): Sleeper {
    x.(ticks := x.ticks - 1)
  }

  function Earlier(x: Sleeper): Sleeper {
    x.(ticks := x.ticks + 1)
  }

  /** Those that sleep on after a tick. */
  function Left(l: seq<Sleeper>): (r: seq<Sleeper>)
    ensures |r| <= |l|
    decreases l
  {
    if l == [] then []
    else (if l[0].ticks - 1 == 0 then [] else [Later(l[0])]) + Left(l[1..])
  }

  /** Those that a tick takes off the list, in the order in which the list is walked. */
  function Due(l: seq<Sleeper>): seq<Thread>
    decreases l
  {
    if l == [] then [] else (if l[0].ticks - 1 == 0 then [l[0].t] else []) + Due(l[1..])
  }

  lemma TicksAreTheMillis(millis: int)
    ensures Ticks(millis) >= 1
    ensures millis >= 10 ==> 10 * Ticks(millis) <= millis < 10 * Ticks(millis) + 10
    ensures millis < 20 ==> Ticks(millis) == 1
  {
  }

  /** A tick splits the list: those with one tick left are due, the others lose one tick. */
  lemma {:induction false} TickSplits(l: seq<Sleeper>)
    ensures forall x :: x in l ==> Sleeper(x.t, 1) == x || Later(x) in Left(l)
    ensures forall x :: x in Left(l) ==> x.ticks != 0 && Earlier(x) in l
    ensures forall t :: t in Due(l) <==> Sleeper(t, 1) in l
    decreases l
  {
    if l != [] {
      TickSplits(l[1..]);
      assert l == [l[0]] + l[1..];
    }
  }

  /** Nobody is lost and nobody is doubled: the threads on the list go to the two parts in order. */
  lemma {:induction false} TickKeepsNames(l: seq<Sleeper>)
    requires NoDuplicates(Names(l))
    ensures NoDuplicates(Names(Left(l))) && NoDuplicates(Due(l))
    ensures forall t :: t in Names(l) <==> t in Names(Left(l)) || t in Due(l)
    ensures forall t :: !(t in Names(Left(l)) && t in Due(l))
    decreases l
  {
    hide Names;
    if l == [] {
      assert Left(l) == l;
    } else {
      NamesCons(l[0], l[1..]);
      assert l == [l[0]] + l[1..];
      NoDuplicatesTail(l[0].t, Names(l[1..]));
      TickKeepsNames(l[1..]);
      var x := l[0];
      NoDuplicatesEnds(Due(l[1..]), x.t);
      NoDuplicatesEnds(Names(Left(l[1..])), x.t);
      NamesCons(x.(ticks := x.ticks - 1), Left(l[1..]));
      if x.ticks - 1 == 0 {
        assert Left(l) == Left(l[1..]);
      } else {
        assert Due(l) == Due(l[1..]);
      }
    }
  }

  lemma NamesCons(x: Sleeper, l: seq<Sleeper>)
    ensures Names([x] + l) == [x.t] + Names(l)
    ensures |Names(l)| == |l|
  {
  }

  lemma NoDuplicatesTail(t: Thread, r: seq<Thread>)
    requires NoDuplicates([t] + r)
    ensures t !in r && NoDuplicates(r)
  {
    var s := [t] + r;
    assert forall i :: 0 <= i < |r| ==> s[i + 1] == r[i] && s[0] == t;
  }

  // ---------------------------------------------------------- exactly on time

  datatype Call = Sleep(t: Thread, millis: int) | Update

  function After(l: seq<Sleeper>, k: Call): seq<Sleeper> {
    match k
    case Sleep(t, millis) => [Sleeper(t, Ticks(millis))] + l
    case Update => Left(l)
  }

  function Run(l: seq<Sleeper>, ks: seq<Call>): seq<Sleeper>
    decreases ks
  {
    if ks == [] then l else Run(After(l, ks[0]), ks[1..])
  }

  function Updates(ks: seq<Call>): nat
    decreases ks
  {
    if ks == [] then 0 else (if ks[0].Update? then 1 else 0) + Updates(ks[1..])
  }

  /** How often the calls wake thread t. */
  function Wakes(l: seq<Sleeper>, ks: seq<Call>, t: Thread): nat
    decreases ks
  {
    if ks == [] then 0
    else (if ks[0].Update? && t in Due(l) then 1 else 0) + Wakes(After(l, ks[0]), ks[1..], t)
  }

  /** t is not on the list and is not put there. */
  ghost predicate Away(l: seq<Sleeper>, t: Thread) {
    forall x :: x in l ==> x.t != t
  }

  ghost predicate NotSlept(ks: seq<Call>, t: Thread) {
    forall k :: k in ks && k.Sleep? ==> k.t != t
  }

  /** x is the one entry of its thread. */
  ghost predicate Only(l: seq<Sleeper>, x: Sleeper) {
    x in l && forall y :: y in l && y.t == x.t ==> y == x
  }

  /**
   A thread that sleeps for n ticks is woken once, by exactly the n-th update: as long as fewer have come
   it is on the list with the rest of its time, from then on it is gone.
   */
  lemma {:induction false} WokenOnItsTick(l: seq<Sleeper>, ks: seq<Call>, x: Sleeper)
    requires x.ticks >= 1 && Only(l, x) && NotSlept(ks, x.t)
    ensures Updates(ks) < x.ticks ==> Only(Run(l, ks), x.(ticks := x.ticks - Updates(ks))) && Wakes(l, ks, x.t) == 0
    ensures Updates(ks) >= x.ticks ==> Away(Run(l, ks), x.t) && Wakes(l, ks, x.t) == 1
    decreases ks
  {
    hide Left, Due, Only, Away, NotSlept;
    if ks != [] {
      var k, l', rest := ks[0], After(l, ks[0]), ks[1..];
      OnlyHere(l, x, ks);
      TickSplits(l);
      if k.Sleep? {
        WokenOnItsTick(l', rest, x);
      } else if x.ticks == 1 {
        assert x == Sleeper(x.t, 1);
        AwayLater(l, x);
        AwayStaysAway(l', rest, x.t);
      } else {
        OnlyLater(l, x);
        WokenOnItsTick(l', rest, Later(x));
      }
    }
  }

  lemma OnlyHere(l: seq<Sleeper>, x: Sleeper, ks: seq<Call>)
    requires Only(l, x) && ks != [] && NotSlept(ks, x.t)
    ensures NotSlept(ks[1..], x.t) && x in l && (x.ticks != 1 ==> Sleeper(x.t, 1) !in l)
    ensures ks[0].Sleep? ==> Only(After(l, ks[0]), x)
  {
    assert ks[0] in ks && forall k :: k in ks[1..] ==> k in ks;
  }

  lemma OnlyLater(l: seq<Sleeper>, x: Sleeper)
    requires Only(l, x) && x.ticks != 1
    ensures Only(Left(l), Later(x))
  {
    hide Left, Due;
    TickSplits(l);
    forall y | y in Left(l) && y.t == x.t
      ensures y == Later(x)
    {
      assert Earlier(y) == x;
    }
  }

  lemma AwayLater(l: seq<Sleeper>, x: Sleeper)
    requires Only(l, x) && x.ticks == 1
    ensures Away(Left(l), x.t)
  {
    hide Left, Due;
    TickSplits(l);
    forall y | y in Left(l)
      ensures y.t != x.t
    {
      assert y.t == x.t ==> Earlier(y) == x;
    }
  }

  lemma {:induction false} AwayStaysAway(l: seq<Sleeper>, ks: seq<Call>, t: Thread)
    requires Away(l, t) && NotSlept(ks, t)
    ensures Away(Run(l, ks), t) && Wakes(l, ks, t) == 0
    decreases ks
  {
    hide Left, Due;
    if ks != [] {
      TickSplits(l);
      assert ks[0] in ks && forall k' :: k' in ks[1..] ==> k' in ks;
      AwayStaysAway(After(l, ks[0]), ks[1..], t);
    }
  }

  // -------------------------------------------------- what a tick does to the rest

  /** The thread table after a tick: the due ones are ready, the dead among them are erased. */
  function Roused(status: map<Thread, Status>, due: seq<Thread>): map<Thread, Status> {
    map t | t in status && !(t in due && status[t] == Dead) :: if t in due then Ready else status[t]
  }

  /** Those of a list of threads that are alive. */
  function Alive(due: seq<Thread>, status: map<Thread, Status>): (r: seq<Thread>)
    ensures forall t :: t in r <==> t in due && !(t in status && status[t] == Dead)
    ensures |r| <= |due|
    decreases due
  {
    if due == [] then []
    else
      var r := Alive(due[..|due| - 1], status);
      var t := due[|due| - 1];
      assert due == due[..|due| - 1] + [t];
      if t in status && status[t] == Dead then r else r + [t]
  }

  lemma {:induction false} AliveNoDuplicates(due: seq<Thread>, status: map<Thread, Status>)
    requires NoDuplicates(due)
    ensures NoDuplicates(Alive(due, status))
    decreases due
  {
    if due != [] {
      var init, t := due[..|due| - 1], due[|due| - 1];
      AliveNoDuplicates(init, status);
      NoDuplicatesEnds(Alive(init, status), t);
    }
  }

  /** Threads that are in no queue can all be let in. */
  ghost predicate Welcome(s: Sched, ts: seq<Thread>, nice: Niceness) {
    && Inv(s, nice) && NoDuplicates(ts)
    && (forall t :: t in ts ==> t !in Runnable(s))
    && (s.current == None ==> ts == [])
  }

  lemma LastIsNew(ts: seq<Thread>)
    requires ts != [] && NoDuplicates(ts)
    ensures NoDuplicates(ts[..|ts| - 1]) && ts[|ts| - 1] !in ts[..|ts| - 1]
  {
  }

  /** The scheduler after it got the threads one by one. */
  function WakeAll(s: Sched, ts: seq<Thread>, nice: Niceness): (r: Sched)
    requires Welcome(s, ts, nice)
    ensures Inv(r, nice) && r.current == s.current
    ensures forall t :: t in Runnable(r) <==> t in Runnable(s) || t in ts
    ensures forall t :: t in r.queueOf <==> t in s.queueOf || t in ts
    decreases ts
  {
    hide Inv, Enqueued, Runnable, NoDuplicates;
    if ts == [] then s
    else
      var init, t := ts[..|ts| - 1], ts[|ts| - 1];
      assert ts == init + [t];
      LastIsNew(ts);
      var r := WakeAll(s, init, nice);
      EnqueueKeeps(r, t, nice);
      EnqueueLeaves(r, t, nice);
      Enqueued(r, t, nice)
  }

  /** A tick goes through the list in order: what it does to two parts, it does to the whole. */
  lemma {:induction false} TickConcat(a: seq<Sleeper>, b: seq<Sleeper>)
    ensures Left(a + b) == Left(a) + Left(b)
    ensures Due(a + b) == Due(a) + Due(b)
    decreases b
  {
    hide Left, Due;
    if b == [] {
      EmptyTick();
      assert a + b == a;
    } else {
      var init, x := b[..|b| - 1], b[|b| - 1];
      TickConcat(a, init);
      TickSnoc(init, x);
      TickSnoc(a + init, x);
      assert b == init + [x] && a + b == (a + init) + [x];
    }
  }

  /** Threads of niceness 0 are let into the ring in the order in which they wake, behind those that are there. */
  lemma {:induction false} WokenInOrder(s: Sched, ts: seq<Thread>, nice: Niceness)
    requires Welcome(s, ts, nice) && forall t :: t in ts ==> nice(t) == 0
    ensures WakeAll(s, ts, nice).ring == s.ring + ts && WakeAll(s, ts, nice).rounds == s.rounds
    decreases ts
  {
    hide Inv, Runnable, NoDuplicates;
    if ts == [] {
      assert s.ring + ts == s.ring;
    } else {
      var init, t := ts[..|ts| - 1], ts[|ts| - 1];
      assert ts == init + [t];
      LastIsNew(ts);
      WokenInOrder(s, init, nice);
      InvLegal(WakeAll(s, init, nice), nice);
      assert s.ring + ts == (s.ring + init) + [t];
    }
  }

  // ------------------------------------------------------------------ sleep.c

  lemma TickCons(l: seq<Sleeper>)
    requires l != []
    ensures Left(l) == (if l[0].ticks - 1 == 0 then [] else [Later(l[0])]) + Left(l[1..])
    ensures Due(l) == (if l[0].ticks - 1 == 0 then [l[0].t] else []) + Due(l[1..])
  {
  }

  lemma {:induction false} TickSnoc(l: seq<Sleeper>, x: Sleeper)
    ensures Left(l + [x]) == Left(l) + if x.ticks == 1 then [] else [Later(x)]
    ensures Due(l + [x]) == Due(l) + if x.ticks == 1 then [x.t] else []
    decreases l
  {
    hide Left, Due;
    if l == [] {
      TickCons([x]);
      EmptyTick();
      assert l + [x] == [x] && Left([]) == [] && Due([]) == [];
      assert Left([x][1..]) == [] && Due([x][1..]) == [];
    } else {
      TickSnoc(l[1..], x);
      TickCons(l);
      TickCons(l + [x]);
      assert (l + [x])[1..] == l[1..] + [x];
    }
  }

  /** What the loop of sleep_update needs to know about its start. */
  ghost predicate Wakeable(s: Sched, l: seq<Sleeper>, status: map<Thread, Status>, nice: Niceness) {
    && Inv(s, nice) && NoDuplicates(Names(l))
    && (forall x :: x in l ==> x.t in status && x.t !in Runnable(s))
    && (s.current == None ==> l == [])
  }

  /** The threads that leave a prefix of the list can all be woken, and the table tells the others apart. */
  lemma DueAreWelcome(s: Sched, l: seq<Sleeper>, status: map<Thread, Status>, j: nat, nice: Niceness)
    requires Wakeable(s, l, status, nice) && j <= |l|
    ensures Welcome(s, Alive(Due(l[..j]), status), nice)
    ensures forall t :: t in Due(l[..j]) ==> t in status
    ensures j < |l| ==> l[j].t in status && l[j].t !in Due(l[..j])
  {
    hide Inv, Runnable, NoDuplicates, Left, Due, Alive;
    TickSplits(l[..j]);
    PrefixNames(l, j);
    TickKeepsNames(l[..j]);
    AliveNoDuplicates(Due(l[..j]), status);
    if l == [] { assert Due(l[..j]) == [] by { EmptyTick(); } }
  }

  lemma EmptyTick()
    ensures Left([]) == [] && Due([]) == []
  {
  }

  lemma PrefixNames(l: seq<Sleeper>, j: nat)
    requires NoDuplicates(Names(l)) && j <= |l|
    ensures NoDuplicates(Names(l[..j]))
    ensures j < |l| ==> l[j].t !in Names(l[..j])
  {
    assert Names(l[..j]) == Names(l)[..j];
    assert j < |l| ==> Names(l)[j] == l[j].t;
  }

  /** What a due thread's turn adds to the threads woken and to the table. */
  lemma RousedStep(status: map<Thread, Status>, due: seq<Thread>, t: Thread)
    requires t in status && t !in due
    ensures var now := Roused(status, due);
            && t in now && now[t] == status[t]
            && Roused(status, due + [t]) == if status[t] == Dead then now - {t} else now[t := Ready]
    ensures Alive(due + [t], status) == Alive(due, status) + if status[t] == Dead then [] else [t]
  {
    assert (due + [t])[..|due|] == due;
  }

  lemma WakeAllStep(s: Sched, ts: seq<Thread>, t: Thread, nice: Niceness)
    requires Welcome(s, ts + [t], nice)
    ensures Welcome(s, ts, nice) && Inv(WakeAll(s, ts, nice), nice) && Legal(WakeAll(s, ts, nice))
    ensures t !in Runnable(WakeAll(s, ts, nice)) && s.current.Some?
    ensures WakeAll(s, ts + [t], nice) == Enqueued(WakeAll(s, ts, nice), t, nice)
  {
    hide Inv, Enqueued, Runnable, NoDuplicates;
    var all := ts + [t];
    assert all[..|all| - 1] == ts;
    LastIsNew(all);
    InvLegal(WakeAll(s, ts, nice), nice);
  }

  class SleepList {
    var sleeping: seq<Sleeper>  // sleepingThreadList, from its head

    constructor ()
      ensures sleeping == []
    {
      sleeping := [];
    }

    method SleepCurrentThread(sched: KernelScheduler, table: ThreadTable, millis: int)
      requires sched.Valid() && sched.current.Some?
      modifies this, table, sched, sched.priorityLevel, sched.ringLevel
      ensures sched.Valid()
      ensures var c := old(sched.current).value;
              && sleeping == [Sleeper(c, Ticks(millis))] + old(sleeping)
              && table.status == old(table.status)[c := Sleeping]
              && sched.State() == Suspended(old(sched.State()), c, sched.nice)
    {
      hide Inv, Dequeued, Switched, Suspended;
      var c := sched.current.value;
      CurrentIsKnown(sched.State(), sched.nice);
      SuspendKeeps(sched.State(), c, sched.nice);
      table.Set(c, Sleeping);
      sleeping := [Sleeper(c, Ticks(millis))] + sleeping;
      var removed := sched.DequeueThread(c);
      sched.ForceScheduler();
    }

    /** What sleep_update does with a thread whose time is over. */
    method Rouse(t: Thread, sched: KernelScheduler, table: ThreadTable)
      requires sched.Valid() && t in table.status
      requires table.status[t] != Dead ==> t !in Runnable(sched.State()) && sched.current.Some?
      modifies table, sched, sched.priorityLevel, sched.ringLevel
      ensures sched.Valid()
      ensures old(table.status)[t] == Dead ==> table.status == old(table.status) - {t} && sched.State() == old(sched.State())
      ensures old(table.status)[t] != Dead ==>
                table.status == old(table.status)[t := Ready] && sched.State() == Enqueued(old(sched.State()), t, sched.nice)
    {
      hide Inv, Runnable, Enqueued;
      if table.status[t] == Dead {
        table.EraseTCB(t);
      } else {
        table.Set(t, Ready);
        sched.Enqueue(t);
      }
    }

    /** One turn of the loop of sleep_update, at node i of the list. */
    method Visit(i: nat, sched: KernelScheduler, table: ThreadTable,
                 ghost s: Sched, ghost l: seq<Sleeper>, ghost status: map<Thread, Status>, ghost j: nat) returns (next: nat)
      requires sched.Valid() && i < |sleeping|
      requires Walked(s, l, status, j, i, sleeping, table.status, sched.State(), sched.nice)
      modifies this, table, sched, sched.priorityLevel, sched.ringLevel
      ensures sched.Valid() && next <= |sleeping| && j < |l|
      ensures Walked(s, l, status, j + 1, next, sleeping, table.status, sched.State(), sched.nice)
    {
      hide Inv, Runnable, NoDuplicates, Wakeable, Welcome, Enqueued, WakeAll, Walked, Legal;
      ghost var now, x := sleeping, sleeping[i];
      WalkStep(s, l, status, j, i, now, table.status, sched.State(), sched.nice);
      CutAfterUpdate(now, i, Later(x));
      sleeping := sleeping[i := Later(sleeping[i])];
      if sleeping[i].ticks == 0 {
        var t := sleeping[i].t;
        sleeping := sleeping[..i] + sleeping[i + 1..];
        Rouse(t, sched, table);
        return i;
      }
      return i + 1;
    }

    method Update(sched: KernelScheduler, table: ThreadTable)
      requires sched.Valid() && Wakeable(sched.State(), sleeping, table.status, sched.nice)
      modifies this, table, sched, sched.priorityLevel, sched.ringLevel
      ensures sched.Valid() && sleeping == Left(old(sleeping))
      ensures table.status == Roused(old(table.status), Due(old(sleeping)))
      ensures var woken := Alive(Due(old(sleeping)), old(table.status));
              && Welcome(old(sched.State()), woken, sched.nice)
              && sched.State() == WakeAll(old(sched.State()), woken, sched.nice)
    {
      hide Inv, Runnable, NoDuplicates, Left, Due, Alive, Roused, Wakeable, Welcome, Enqueued, WakeAll, Walked, Legal;
      ghost var l, s, status := sleeping, sched.State(), table.status;
      var i: nat := 0;
      ghost var j := 0;
      WalkStarts(s, l, status, sched.nice);
      while i < |sleeping|
        invariant i <= |sleeping| && j <= |l|
        invariant sched.Valid() && Walked(s, l, status, j, i, sleeping, table.status, sched.State(), sched.nice)
        decreases |l| - j
      {
        i := Visit(i, sched, table, s, l, status, j);
        j := j + 1;
      }
      WalkEnds(s, l, status, j, i, sleeping, table.status, sched.State(), sched.nice);
    }
  }

  lemma CutAfterUpdate(l: seq<Sleeper>, i: nat, x: Sleeper)
    requires i < |l|
    ensures l[i := x][..i] + l[i := x][i + 1..] == l[..i] + l[i + 1..]
  {
  }

  /** Where sleep_update stands after j of the entries of l: node i of the list comes next. */
  ghost predicate Walked(s: Sched, l: seq<Sleeper>, status: map<Thread, Status>, j: nat,
                         i: int, now: seq<Sleeper>, table: map<Thread, Status>, b: Sched, nice: Niceness)
  {
    && j <= |l| && Wakeable(s, l, status, nice)
    && now == Left(l[..j]) + l[j..] && i == |Left(l[..j])|
    && table == Roused(status, Due(l[..j]))
    && var ts := Alive(Due(l[..j]), status);
       Welcome(s, ts, nice) && b == WakeAll(s, ts, nice)
  }

  lemma WalkStarts(s: Sched, l: seq<Sleeper>, status: map<Thread, Status>, nice: Niceness)
    requires Wakeable(s, l, status, nice)
    ensures Walked(s, l, status, 0, 0, l, status, s, nice)
  {
    hide Inv, Runnable, Wakeable;
    DueAreWelcome(s, l, status, 0, nice);
  }

  lemma WalkEnds(s: Sched, l: seq<Sleeper>, status: map<Thread, Status>, j: nat,
                 i: int, now: seq<Sleeper>, table: map<Thread, Status>, b: Sched, nice: Niceness)
    requires Walked(s, l, status, j, i, now, table, b, nice) && i >= |now|
    ensures now == Left(l) && table == Roused(status, Due(l))
    ensures var ts := Alive(Due(l), status); Welcome(s, ts, nice) && b == WakeAll(s, ts, nice)
  {
    hide Inv, Runnable, Left, Due, Alive, Roused, Wakeable, Welcome, WakeAll;
    assert l[..j] == l;
  }

  /** One turn of the loop, by the three ways through its body. */
  lemma WalkStep(s: Sched, l: seq<Sleeper>, status: map<Thread, Status>, j: nat,
                 i: int, now: seq<Sleeper>, table: map<Thread, Status>, b: Sched, nice: Niceness)
    requires 0 <= i < |now| && Walked(s, l, status, j, i, now, table, b, nice)
    ensures var x, rest := now[i], now[..i] + now[i + 1..];
            && j < |l|
            && (x.ticks != 1 ==> Walked(s, l, status, j + 1, i + 1, now[i := Later(x)], table, b, nice))
            && (x.ticks == 1 ==>
                  && x.t in table
                  && (table[x.t] == Dead ==> Walked(s, l, status, j + 1, i, rest, table - {x.t}, b, nice))
                  && (table[x.t] != Dead ==>
                        && Inv(b, nice) && Legal(b) && x.t !in Runnable(b) && b.current.Some?
                        && Walked(s, l, status, j + 1, i, rest, table[x.t := Ready], Enqueued(b, x.t, nice), nice)))
  {
    hide Inv, Runnable, NoDuplicates, Left, Due, Alive, Roused, Wakeable, Welcome, Enqueued, WakeAll;
    var x, due := l[j], Due(l[..j]);
    DueAreWelcome(s, l, status, j, nice);
    DueAreWelcome(s, l, status, j + 1, nice);
    assert l[..j + 1] == l[..j] + [x];
    TickSnoc(l[..j], x);
    assert l[j..] == [x] + l[j + 1..];
    if x.ticks == 1 {
      RousedStep(status, due, x.t);
      if status[x.t] == Dead {
        assert Alive(due, status) + [] == Alive(due, status);
      } else {
        WakeAllStep(s, Alive(due, status), x.t, nice);
        InvLegal(b, nice);
      }
    } else {
      assert due + [] == due;
    }
  }
}
