/**
 Userland/SampleCodeModule/programs/philosophers.c: forks and seats as counting semaphores, births and
 departures under a mutex, every thread interleaving with every other one between two calls.
 */
module Philosophers {
  import opened Sequences
  import opened Options
  import opened Threads
  import Mutex
  import Semaphore

  const MAX_PHI := 20

  /** What a philosopher does next; the `On` phases are blocked ones. */
  datatype Phase =
    | Thinking | Called                      // the two reads of the check at the top of the loop
    | WantSeat | OnSeat | Seated | OnFork1 | OneFork | OnFork2
    | Eating | Freed1 | Freed2               // both forks, one fork, no fork; still in the seat
    | WantOut | OnLock | Leaving | Left      // philosopherSuicide, around the mutex
    | OutSeat | OnOutSeat | OutFork | OnOutFork | Gone

  datatype Resource = Seats | Forks | Lock | Nothing

  /** What a blocked philosopher waits for. */
  function Awaits(p: Phase): Resource {
    match p
    case OnSeat | OnOutSeat => Seats
    case OnFork1 | OnFork2 | OnOutFork => Forks
    case OnLock => Lock
    case _ => Nothing
  }

  /** The phase that a wait leads to when it blocks. */
  function Block(p: Phase): Phase {
    match p
    case WantSeat => OnSeat
    case OutSeat => OnOutSeat
    case Seated => OnFork1
    case OneFork => OnFork2
    case OutFork => OnOutFork
    case WantOut => OnLock
    case _ => p
  }

  /** The phase of a blocked philosopher that got what it waits for. */
  function Grant(p: Phase): Phase {
    match p
    case OnSeat => Seated
    case OnOutSeat => OutFork
    case OnFork1 => OneFork
    case OnFork2 => Eating
    case OnOutFork => Gone
    case OnLock => Leaving
    case _ => p
  }

  /** The thread that reads the keyboard: born and die, both under the mutex. */
  datatype Main = Idle | BornOn | DieOn | Born | Signalled | Created | Counted | Dying | Unlocking

  const MAIN := Thread(-1, 0)

  datatype State = State(
    lock: Mutex.MutexState,          // pMutex
    seats: Semaphore.SemState,       // phiInTable
    forks: Semaphore.SemState,
    names: seq<Thread>, phases: seq<Phase>, ids: seq<int>,   // every philosopher that was ever born
    main: Main, qty: int, toDie: int, nextId: int, indexToDie: int,
    phis: seq<int>,                  // the ids in the table phis
    forksMade: int, seatsMade: int,  // signals of born so far
    alone: int)                      // births into an empty table

  datatype Act =
    | BornCall | DieCall
    | MainNext(newborn: Thread)      // the next statement of born or die
    | Go(i: nat, stray: int)         // the next statement of philosopher i; stray is what phis[-1] reads as

  // -------------------------------------------------------------------- steps

  /** The phases after the thread that was woken, if it is a philosopher, got what it waited for. */
  function WakePhil(phases: seq<Phase>, names: seq<Thread>, t: Option<Thread>): (r: seq<Phase>)
    requires |phases| == |names|
    ensures |r| == |phases|
    ensures forall i :: 0 <= i < |phases| ==> r[i] == if t == Some(names[i]) then Grant(phases[i]) else phases[i]
  {
    seq(|phases|, i requires 0 <= i < |phases| => if t == Some(names[i]) then Grant(phases[i]) else phases[i])
  }

  function WakeMain(main: Main, t: Option<Thread>): Main {
    if t != Some(MAIN) then main
    else match main
         case BornOn => Born
         case DieOn => Dying
         case _ => main
  }

  predicate Shaped(s: State) {
    |s.phases| == |s.names| == |s.ids| && |s.phis| == MAX_PHI && 0 <= s.qty <= MAX_PHI
  }

  function SetPhase(s: State, i: nat, p: Phase): State
    requires i < |s.phases|
  {
    s.(phases := s.phases[i := p])
  }

  function TakeSeat(s: State, i: nat): State
    requires Shaped(s) && i < |s.phases|
  {
    var (q, got) := Semaphore.Wait(s.seats, s.names[i]);
    var p := Block(s.phases[i]);
    SetPhase(s, i, if got then Grant(p) else p).(seats := q)
  }

  function TakeFork(s: State, i: nat): State
    requires Shaped(s) && i < |s.phases|
  {
    var (q, got) := Semaphore.Wait(s.forks, s.names[i]);
    var p := Block(s.phases[i]);
    SetPhase(s, i, if got then Grant(p) else p).(forks := q)
  }

  function GiveSeat(s: State): State
    requires Shaped(s)
  {
    var (q, woken) := Semaphore.Signal(s.seats, {});
    s.(seats := q, phases := WakePhil(s.phases, s.names, woken))
  }

  function GiveFork(s: State): State
    requires Shaped(s)
  {
    var (q, woken) := Semaphore.Signal(s.forks, {});
    s.(forks := q, phases := WakePhil(s.phases, s.names, woken))
  }

  function TakeLock(s: State, i: nat): State
    requires Shaped(s) && i < |s.phases|
  {
    var (m, got) := Mutex.Acquire(s.lock, s.names[i]);
    var p := Block(s.phases[i]);
    SetPhase(s, i, if got then Grant(p) else p).(lock := m)
  }

  function FreeLock(s: State, c: Thread): State
    requires Shaped(s)
  {
    var (m, woken) := Mutex.Release(s.lock, c, {});
    s.(lock := m, phases := WakePhil(s.phases, s.names, woken), main := WakeMain(s.main, woken))
  }

  /** The part of philosopherSuicide that runs under the mutex. */
  function Leave(s: State, i: nat, stray: int): State
    requires Shaped(s) && i < |s.phases|
  {
    var qty := s.qty - 1;
    SetPhase(s, i, Left).(qty := qty, toDie := s.toDie - 1,
      indexToDie := if qty >= 1 then s.phis[qty - 1] else stray)
  }

  predicate CanGo(s: State, i: nat) {
    Shaped(s) && i < |s.phases| && Awaits(s.phases[i]) == Nothing && s.phases[i] != Gone
  }

  function PhilStep(s: State, i: nat, stray: int): State
    requires CanGo(s, i)
  {
    match s.phases[i]
    case Thinking => SetPhase(s, i, if s.toDie > 0 then Called else WantSeat)
    case Called => SetPhase(s, i, if s.ids[i] == s.indexToDie then WantOut else WantSeat)
    case WantSeat | OutSeat => TakeSeat(s, i)
    case Seated | OneFork | OutFork => TakeFork(s, i)
    case Eating => GiveFork(SetPhase(s, i, Freed1))
    case Freed1 => GiveFork(SetPhase(s, i, Freed2))
    case Freed2 => GiveSeat(SetPhase(s, i, Thinking))
    case WantOut => TakeLock(s, i)
    case Leaving => Leave(s, i, stray)
    case Left => FreeLock(SetPhase(s, i, OutSeat), s.names[i])
    case _ => s
  }

  function MainLocks(s: State, inside: Main, blocked: Main): State {
    var (m, got) := Mutex.Acquire(s.lock, MAIN);
    s.(lock := m, main := if got then inside else blocked)
  }

  /** pthread_create: the philosopher may run from here on. */
  function Create(s: State, t: Thread): State {
    s.(main := Created, names := s.names + [t], phases := s.phases + [Thinking], ids := s.ids + [s.nextId],
       nextId := s.nextId + 1)
  }

  function CountIn(s: State): State
    requires Shaped(s) && s.qty < MAX_PHI
  {
    s.(main := Counted, indexToDie := s.nextId - 1, phis := s.phis[s.qty := s.nextId - 1], qty := s.qty + 1)
  }

  predicate CanAct(s: State, a: Act) {
    && Shaped(s)
    && match a
       case BornCall | DieCall => s.main == Idle
       case MainNext(t) =>
         && s.main != Idle && s.main != BornOn && s.main != DieOn
         && (s.main == Signalled ==> t !in s.names && t != MAIN)
         && (s.main == Created ==> s.qty < MAX_PHI)
       case Go(i, _) => CanGo(s, i)
  }

  function Step(s: State, a: Act): State
    requires CanAct(s, a)
  {
    match a
    case BornCall => MainLocks(s, Born, BornOn)
    case DieCall => MainLocks(s, Dying, DieOn)
    case Go(i, stray) => PhilStep(s, i, stray)
    case MainNext(t) =>
      match s.main
      case Born =>
        if s.qty >= MAX_PHI then s.(main := Unlocking)
        else GiveFork(s).(main := Signalled, forksMade := s.forksMade + 1)
      case Signalled => Create(s, t)
      case Created => CountIn(s)
      case Counted =>
        if s.qty > 1 then GiveSeat(s).(main := Unlocking, seatsMade := s.seatsMade + 1)
        else s.(main := Unlocking, alone := s.alone + 1)
      case Dying => s.(main := Unlocking, toDie := if s.qty == 0 then s.toDie else s.toDie + 1)
      case Unlocking => FreeLock(s.(main := Idle), MAIN)
      case _ => s
  }

  // --------------------------------------------------------------- what is held

  datatype Kind = Seat | Fork | Place

  /** How many seats and forks a philosopher has (for good, once it is gone), and whether qty counts it. */
  function Amount(p: Phase, k: Kind): int {
    match k
    case Seat =>
      (match p
       case Seated | OnFork1 | OneFork | OnFork2 | Eating | Freed1 | Freed2 | OutFork | OnOutFork | Gone => 1
       case _ => 0)
    case Fork =>
      (match p
       case OneFork | OnFork2 | Freed1 | Gone => 1
       case Eating => 2
       case _ => 0)
    case Place =>
      (match p
       case Left | OutSeat | OnOutSeat | OutFork | OnOutFork | Gone => 0
       case _ => 1)
  }

  function Amounts(ps: seq<Phase>, k: Kind): (r: seq<int>)
    ensures |r| == |ps| && forall i :: 0 <= i < |ps| ==> r[i] == Amount(ps[i], k)
  {
    seq(|ps|, i requires 0 <= i < |ps| => Amount(ps[i], k))
  }

  function Count(ps: seq<Phase>, k: Kind): int {
    Sum(Amounts(ps, k))
  }

  lemma CountUpdate(ps: seq<Phase>, i: nat, p: Phase, k: Kind)
    requires i < |ps|
    ensures Count(ps[i := p], k) == Count(ps, k) - Amount(ps[i], k) + Amount(p, k)
  {
    hide Amount, Sum;
    SumUpdate(Amounts(ps, k), i, Amount(p, k));
    assert Amounts(ps[i := p], k) == Amounts(ps, k)[i := Amount(p, k)];
  }

  lemma CountSnoc(ps: seq<Phase>, p: Phase, k: Kind)
    ensures Count(ps + [p], k) == Count(ps, k) + Amount(p, k)
  {
    hide Amount;
    assert Amounts(ps + [p], k) == Amounts(ps, k) + [Amount(p, k)];
    SumConcat(Amounts(ps, k), [Amount(p, k)]);
  }

  lemma CountWithin(ps: seq<Phase>, k: Kind)
    ensures 0 <= Count(ps, k)
    ensures k == Place ==> Count(ps, k) <= |ps|
    ensures forall i :: 0 <= i < |ps| ==> Amount(ps[i], k) <= Count(ps, k)
    decreases ps
  {
    hide Sum;
    SumNonNegative(Amounts(ps, k));
    if k == Place { SumAtMostLength(Amounts(ps, k)); }
  }

  lemma {:induction false} SumAtMostLength(a: seq<int>)
    requires forall x :: x in a ==> x <= 1
    ensures Sum(a) <= |a|
    decreases a
  {
    if a != [] {
      assert a[0] in a && forall x :: x in a[1..] ==> x in a;
      SumAtMostLength(a[1..]);
    }
  }

  // ------------------------------------------------------------------ invariant

  /** The queue of a semaphore holds exactly the philosophers that wait for it. */
  ghost predicate Queued(ps: seq<Phase>, names: seq<Thread>, q: seq<Thread>, r: Resource) {
    && |ps| == |names| && NoDuplicates(q)
    && (forall i :: 0 <= i < |ps| ==> (Awaits(ps[i]) == r <==> names[i] in q))
    && (forall t :: t in q ==> t in names || (r == Lock && t == MAIN))
  }

  predicate MainInside(m: Main) {
    m != Idle && m != BornOn && m != DieOn
  }

  /** Those inside the mutex are who the mutex says. */
  ghost predicate Guarded(s: State) {
    && |s.phases| == |s.names| && Mutex.Sane(s.lock)
    && (forall i :: 0 <= i < |s.phases| ==> (Suicidal(s.phases[i]) <==> Mutex.Inside(s.lock) == Some(s.names[i])))
    && (MainInside(s.main) <==> Mutex.Inside(s.lock) == Some(MAIN))
    && (s.main == BornOn || s.main == DieOn <==> MAIN in s.lock.queue)
    && (Mutex.Inside(s.lock).Some? ==> Mutex.Inside(s.lock).value in s.names || Mutex.Inside(s.lock).value == MAIN)
  }

  /** In the part of philosopherSuicide that the mutex guards. */
  predicate Suicidal(p: Phase) {
    p == Leaving || p == Left
  }

  ghost predicate Waiting(s: State) {
    && NoDuplicates(s.names) && MAIN !in s.names
    && Semaphore.Orderly(s.seats) && Semaphore.Orderly(s.forks)
    && Queued(s.phases, s.names, s.seats.queue, Seats) && Queued(s.phases, s.names, s.forks.queue, Forks)
    && Queued(s.phases, s.names, s.lock.queue, Lock)
  }

  /** The seats and the forks that are free or in someone's hands. */
  function SeatTotal(s: State): int {
    s.seats.value + Count(s.phases, Seat)
  }

  function ForkTotal(s: State): int {
    s.forks.value + Count(s.phases, Fork)
  }

  ghost predicate Conserved(s: State) {
    SeatTotal(s) == s.seatsMade && ForkTotal(s) == s.forksMade
  }

  /** A fork was signalled for a birth whose seat is not yet decided on. */
  predicate Pending(m: Main) {
    m == Signalled || m == Created || m == Counted
  }

  ghost predicate BirthsCounted(s: State) {
    && Shaped(s)
    && s.qty + (if s.main == Created then 1 else 0) == Count(s.phases, Place)
    && |s.names| + (if s.main == Signalled then 1 else 0) == s.forksMade
    && (s.main == Signalled || s.main == Created ==> s.qty < MAX_PHI)
    && s.seatsMade + s.alone + (if Pending(s.main) then 1 else 0) == s.forksMade
    && s.alone >= 0 && s.seatsMade >= 0
    && (s.alone >= 1 || s.forksMade == if Pending(s.main) then 1 else 0)
  }

  ghost predicate Inv(s: State) {
    Guarded(s) && Waiting(s) && Conserved(s) && BirthsCounted(s)
  }

  // ------------------------------------------------- how one phase or one queue changes

  /** A philosopher changes phase; whether it waits for r stays as it was. */
  lemma QueuedSame(ps: seq<Phase>, names: seq<Thread>, q: seq<Thread>, r: Resource, i: nat, p: Phase)
    requires Queued(ps, names, q, r) && i < |ps| && (Awaits(p) == r <==> Awaits(ps[i]) == r)
    ensures Queued(ps[i := p], names, q, r)
  {
    hide Awaits, NoDuplicates;
  }

  lemma QueuedBlock(ps: seq<Phase>, names: seq<Thread>, q: seq<Thread>, r: Resource, i: nat, p: Phase)
    requires Queued(ps, names, q, r) && NoDuplicates(names) && i < |ps| && Awaits(p) == r != Awaits(ps[i])
    ensures Queued(ps[i := p], names, q + [names[i]], r)
  {
    hide Awaits;
    NoDuplicatesEnds(q, names[i]);
  }

  /** The waiter that was woken, and it alone, left the queue of r. */
  ghost predicate Popped(q: seq<Thread>, q': seq<Thread>, woken: Option<Thread>) {
    && (woken == None ==> q' == q)
    && (woken.Some? ==> q == [woken.value] + q')
  }

  lemma QueuedWake(ps: seq<Phase>, names: seq<Thread>, q: seq<Thread>, q': seq<Thread>, r: Resource, woken: Option<Thread>)
    requires Queued(ps, names, q, r) && NoDuplicates(names) && r != Nothing && Popped(q, q', woken)
    ensures Queued(WakePhil(ps, names, woken), names, q', r)
  {
    if woken.Some? { NoDuplicatesParts([woken.value], q'); }
    GrantEndsWaiting();
  }

  lemma GrantEndsWaiting()
    ensures forall p :: Awaits(Grant(p)) == Nothing
  {
  }

  lemma QueuedElsewhere(ps: seq<Phase>, names: seq<Thread>, q: seq<Thread>, q2: seq<Thread>, r: Resource,
                        r2: Resource, woken: Option<Thread>)
    requires Queued(ps, names, q, r) && Queued(ps, names, q2, r2) && r != r2 && r2 != Nothing
    requires woken.Some? ==> woken.value in q
    ensures Queued(WakePhil(ps, names, woken), names, q2, r2)
  {
    hide Awaits, Grant, NoDuplicates;
    GrantEndsWaiting();
  }

  /** A wake-up changes at most one phase. */
  lemma WakeIsUpdate(ps: seq<Phase>, names: seq<Thread>, q: seq<Thread>, r: Resource, woken: Option<Thread>)
    returns (j: nat)
    requires Queued(ps, names, q, r) && NoDuplicates(names) && (woken.Some? ==> woken.value in q)
    requires woken.Some? && woken.value == MAIN ==> MAIN !in names
    ensures woken.Some? && woken.value in names ==>
              && j < |ps| && names[j] == woken.value && Awaits(ps[j]) == r
              && WakePhil(ps, names, woken) == ps[j := Grant(ps[j])]
    ensures woken.Some? && r != Lock ==> woken.value in names
    ensures woken == None || woken.value !in names ==> WakePhil(ps, names, woken) == ps
  {
    hide Awaits, Grant;
    j := 0;
    if woken.Some? && woken.value in names {
      j :| 0 <= j < |names| && names[j] == woken.value;
    }
  }

  lemma SignalPops(s: Semaphore.SemState)
    requires Semaphore.Orderly(s)
    ensures var (s', woken) := Semaphore.Signal(s, {});
            && Semaphore.Orderly(s') && Popped(s.queue, s'.queue, woken)
            && (woken.Some? ==> woken.value in s.queue)
            && s'.value == s.value + if woken.Some? then 0 else 1
  {
    Semaphore.SignalIsSpentOnce(s, {});
    PoppedHead(s.queue);
  }

  lemma PoppedHead(q: seq<Thread>)
    ensures Mutex.DeadAhead(q, {}) == 0
  {
    Mutex.DeadAheadIs(q, {}, 0);
  }

  lemma ReleasePops(m: Mutex.MutexState, c: Thread)
    requires Mutex.Sane(m) && Mutex.Inside(m) == Some(c)
    ensures var (m', woken) := Mutex.Release(m, c, {});
            && Mutex.Sane(m') && Popped(m.queue, m'.queue, woken) && Mutex.Inside(m') == woken
            && (woken.Some? ==> woken.value in m.queue)
  {
    Mutex.ReleaseHandsOver(m, c, {});
    PoppedHead(m.queue);
  }

  // ---------------------------------------------------- what each kind of step keeps

  /** The totals of seats, forks and places that a step leaves as they were, up to the given differences. */
  ghost predicate Shifts(s: State, s': State, seats: int, forks: int, places: int) {
    && SeatTotal(s') == SeatTotal(s) + seats && ForkTotal(s') == ForkTotal(s) + forks
    && Count(s'.phases, Place) == Count(s.phases, Place) + places
  }

  /** Nothing but phases, semaphores and the mutex changed. */
  ghost predicate SameBooks(s: State, s': State) {
    s' == s.(lock := s'.lock, seats := s'.seats, forks := s'.forks, phases := s'.phases, main := s'.main)
      && |s'.phases| == |s.phases|
  }

  lemma SetKeeps(s: State, i: nat, p: Phase)
    requires Waiting(s) && i < |s.phases| && Awaits(p) == Awaits(s.phases[i]) == Nothing
    ensures var s' := SetPhase(s, i, p);
            && Waiting(s') && SameBooks(s, s')
            && (Guarded(s) && Suicidal(p) == Suicidal(s.phases[i]) ==> Guarded(s'))
            && Shifts(s, s', Amount(p, Seat) - Amount(s.phases[i], Seat), Amount(p, Fork) - Amount(s.phases[i], Fork),
                      Amount(p, Place) - Amount(s.phases[i], Place))
  {
    hide Awaits, NoDuplicates, Amount, Count, Queued, Mutex.Sane, Mutex.Inside, Semaphore.Orderly;
    CountUpdate(s.phases, i, p, Seat);
    CountUpdate(s.phases, i, p, Fork);
    CountUpdate(s.phases, i, p, Place);
    QueuedSame(s.phases, s.names, s.seats.queue, Seats, i, p);
    QueuedSame(s.phases, s.names, s.forks.queue, Forks, i, p);
    QueuedSame(s.phases, s.names, s.lock.queue, Lock, i, p);
  }

  lemma TakeSeatKeeps(s: State, i: nat)
    requires Waiting(s) && Guarded(s) && Shaped(s) && i < |s.phases| && (s.phases[i] == WantSeat || s.phases[i] == OutSeat)
    ensures var s' := TakeSeat(s, i);
            Waiting(s') && Guarded(s') && SameBooks(s, s') && s'.main == s.main && Shifts(s, s', 0, 0, 0)
  {
    hide Awaits, NoDuplicates, Amount, Count, Queued, Mutex.Sane, Mutex.Inside, Semaphore.Orderly, Semaphore.Wait;
    var p := TakeSeat(s, i).phases[i];
    TakeFacts(s.phases[i]);
    GrantFacts(Block(s.phases[i]));
    Semaphore.WaitBlocksAtZero(s.seats, s.names[i]);
    assert s.seats.queue + [] == s.seats.queue;
    CountUpdate(s.phases, i, p, Seat);
    CountUpdate(s.phases, i, p, Fork);
    CountUpdate(s.phases, i, p, Place);
    QueuedSame(s.phases, s.names, s.forks.queue, Forks, i, p);
    QueuedSame(s.phases, s.names, s.lock.queue, Lock, i, p);
    if Semaphore.Wait(s.seats, s.names[i]).1 {
      QueuedSame(s.phases, s.names, s.seats.queue, Seats, i, p);
    } else {
      QueuedBlock(s.phases, s.names, s.seats.queue, Seats, i, p);
    }
  }

  lemma TakeForkKeeps(s: State, i: nat)
    requires Waiting(s) && Guarded(s) && Shaped(s) && i < |s.phases|
    requires s.phases[i] == Seated || s.phases[i] == OneFork || s.phases[i] == OutFork
    ensures var s' := TakeFork(s, i);
            Waiting(s') && Guarded(s') && SameBooks(s, s') && s'.main == s.main && Shifts(s, s', 0, 0, 0)
  {
    hide Awaits, NoDuplicates, Amount, Count, Queued, Mutex.Sane, Mutex.Inside, Semaphore.Orderly, Semaphore.Wait;
    var p := TakeFork(s, i).phases[i];
    TakeFacts(s.phases[i]);
    GrantFacts(Block(s.phases[i]));
    Semaphore.WaitBlocksAtZero(s.forks, s.names[i]);
    assert s.forks.queue + [] == s.forks.queue;
    CountUpdate(s.phases, i, p, Seat);
    CountUpdate(s.phases, i, p, Fork);
    CountUpdate(s.phases, i, p, Place);
    QueuedSame(s.phases, s.names, s.seats.queue, Seats, i, p);
    QueuedSame(s.phases, s.names, s.lock.queue, Lock, i, p);
    if Semaphore.Wait(s.forks, s.names[i]).1 {
      QueuedSame(s.phases, s.names, s.forks.queue, Forks, i, p);
    } else {
      QueuedBlock(s.phases, s.names, s.forks.queue, Forks, i, p);
    }
  }

  /** What a wait does to a philosopher's phase, by what it waits for. */
  lemma TakeFacts(p: Phase)
    requires p == WantSeat || p == OutSeat || p == Seated || p == OneFork || p == OutFork || p == WantOut
    ensures Awaits(p) == Nothing == Awaits(Grant(Block(p))) && !Suicidal(p) && !Suicidal(Block(p))
    ensures Awaits(Block(p)) == if p == WantSeat || p == OutSeat then Seats else if p == WantOut then Lock else Forks
    ensures forall k :: Amount(Block(p), k) == Amount(p, k)
    ensures Suicidal(Grant(Block(p))) <==> p == WantOut
  {
  }

  /** What a hand-off gives to a philosopher. */
  lemma GrantFacts(p: Phase)
    ensures Amount(Grant(p), Seat) == Amount(p, Seat) + if Awaits(p) == Seats then 1 else 0
    ensures Amount(Grant(p), Fork) == Amount(p, Fork) + if Awaits(p) == Forks then 1 else 0
    ensures Amount(Grant(p), Place) == Amount(p, Place)
    ensures Suicidal(Grant(p)) <==> Suicidal(p) || Awaits(p) == Lock
  {
  }

  /** What a hand-off to a waiter for r does to the counts. */
  lemma WakeCounts(ps: seq<Phase>, names: seq<Thread>, q: seq<Thread>, r: Resource, woken: Option<Thread>)
    requires Queued(ps, names, q, r) && NoDuplicates(names) && MAIN !in names && (woken.Some? ==> woken.value in q)
    ensures var ps' := WakePhil(ps, names, woken);
            && Count(ps', Seat) == Count(ps, Seat) + (if woken.Some? && r == Seats then 1 else 0)
            && Count(ps', Fork) == Count(ps, Fork) + (if woken.Some? && r == Forks then 1 else 0)
            && Count(ps', Place) == Count(ps, Place)
    ensures r != Lock ==> forall i :: 0 <= i < |ps| ==> Suicidal(WakePhil(ps, names, woken)[i]) == Suicidal(ps[i])
  {
    hide Awaits, NoDuplicates, Amount, Count, Queued, Suicidal, Grant;
    var j := WakeIsUpdate(ps, names, q, r, woken);
    if woken.Some? && woken.value in names {
      var p := Grant(ps[j]);
      GrantFacts(ps[j]);
      CountUpdate(ps, j, p, Seat);
      CountUpdate(ps, j, p, Fork);
      CountUpdate(ps, j, p, Place);
    }
  }

  lemma GiveSeatKeeps(s: State)
    requires Waiting(s) && Guarded(s) && Shaped(s)
    ensures var s' := GiveSeat(s);
            Waiting(s') && Guarded(s') && SameBooks(s, s') && s'.main == s.main && Shifts(s, s', 1, 0, 0)
  {
    hide Awaits, NoDuplicates, Amount, Count, Queued, Mutex.Sane, Mutex.Inside, Semaphore.Orderly, Semaphore.Signal,
      Suicidal;
    SignalPops(s.seats);
    var (q, woken) := Semaphore.Signal(s.seats, {});
    WakeCounts(s.phases, s.names, s.seats.queue, Seats, woken);
    QueuedWake(s.phases, s.names, s.seats.queue, q.queue, Seats, woken);
    QueuedElsewhere(s.phases, s.names, s.seats.queue, s.forks.queue, Seats, Forks, woken);
    QueuedElsewhere(s.phases, s.names, s.seats.queue, s.lock.queue, Seats, Lock, woken);
  }

  lemma GiveForkKeeps(s: State)
    requires Waiting(s) && Guarded(s) && Shaped(s)
    ensures var s' := GiveFork(s);
            Waiting(s') && Guarded(s') && SameBooks(s, s') && s'.main == s.main && Shifts(s, s', 0, 1, 0)
  {
    hide Awaits, NoDuplicates, Amount, Count, Queued, Mutex.Sane, Mutex.Inside, Semaphore.Orderly, Semaphore.Signal,
      Suicidal;
    SignalPops(s.forks);
    var (q, woken) := Semaphore.Signal(s.forks, {});
    WakeCounts(s.phases, s.names, s.forks.queue, Forks, woken);
    QueuedWake(s.phases, s.names, s.forks.queue, q.queue, Forks, woken);
    QueuedElsewhere(s.phases, s.names, s.forks.queue, s.seats.queue, Forks, Seats, woken);
    QueuedElsewhere(s.phases, s.names, s.forks.queue, s.lock.queue, Forks, Lock, woken);
  }

  lemma TakeLockKeeps(s: State, i: nat)
    requires Waiting(s) && Guarded(s) && Shaped(s) && i < |s.phases| && s.phases[i] == WantOut
    ensures var s' := TakeLock(s, i);
            Waiting(s') && Guarded(s') && SameBooks(s, s') && s'.main == s.main && Shifts(s, s', 0, 0, 0)
  {
    hide Awaits, NoDuplicates, Amount, Count, Queued, Mutex.Sane, Mutex.Inside, Semaphore.Orderly, Mutex.Acquire, Suicidal;
    var p := TakeLock(s, i).phases[i];
    TakeFacts(s.phases[i]);
    GrantFacts(Block(s.phases[i]));
    Mutex.AcquireExcludes(s.lock, s.names[i]);
    Mutex.NobodyWaits(s.lock);
    CountUpdate(s.phases, i, p, Seat);
    CountUpdate(s.phases, i, p, Fork);
    CountUpdate(s.phases, i, p, Place);
    QueuedSame(s.phases, s.names, s.seats.queue, Seats, i, p);
    QueuedSame(s.phases, s.names, s.forks.queue, Forks, i, p);
    OtherNames(s.names, i);
    if Mutex.Acquire(s.lock, s.names[i]).1 {
      QueuedSame(s.phases, s.names, s.lock.queue, Lock, i, p);
    } else {
      QueuedBlock(s.phases, s.names, s.lock.queue, Lock, i, p);
    }
  }

  lemma OtherNames(names: seq<Thread>, i: nat)
    requires NoDuplicates(names) && i < |names|
    ensures names[i] in names && forall j :: 0 <= j < |names| && j != i ==> names[j] != names[i]
  {
  }

  /** The mutex is still held by someone who is already on the way out of it. */
  ghost predicate Deserted(s: State) {
    && |s.phases| == |s.names| && Mutex.Sane(s.lock) && !MainInside(s.main)
    && (forall i :: 0 <= i < |s.phases| ==> !Suicidal(s.phases[i]))
    && (s.main == BornOn || s.main == DieOn <==> MAIN in s.lock.queue)
  }

  lemma FreeLockKeeps(s: State, c: Thread)
    requires Waiting(s) && Deserted(s) && Shaped(s) && Mutex.Inside(s.lock) == Some(c)
    ensures var s' := FreeLock(s, c); Waiting(s') && Guarded(s') && SameBooks(s, s') && Shifts(s, s', 0, 0, 0)
    ensures FreeLock(s, c).main == s.main || (FreeLock(s, c).main == Born && s.main == BornOn)
         || (FreeLock(s, c).main == Dying && s.main == DieOn)
  {
    hide Awaits, Amount, Count, Mutex.Sane, Mutex.Inside, Semaphore.Orderly, Mutex.Release, Suicidal, Grant, Queued,
      NoDuplicates;
    ReleasePops(s.lock, c);
    var (m, woken) := Mutex.Release(s.lock, c, {});
    WakeCounts(s.phases, s.names, s.lock.queue, Lock, woken);
    QueuedWake(s.phases, s.names, s.lock.queue, m.queue, Lock, woken);
    QueuedElsewhere(s.phases, s.names, s.lock.queue, s.forks.queue, Lock, Forks, woken);
    QueuedElsewhere(s.phases, s.names, s.lock.queue, s.seats.queue, Lock, Seats, woken);
    NewOwner(s.phases, s.names, s.lock.queue, m.queue, woken);
  }

  lemma NewOwner(ps: seq<Phase>, names: seq<Thread>, q: seq<Thread>, q': seq<Thread>, woken: Option<Thread>)
    requires Queued(ps, names, q, Lock) && NoDuplicates(names) && Popped(q, q', woken) && MAIN !in names
    requires forall i :: 0 <= i < |ps| ==> !Suicidal(ps[i])
    ensures var ps' := WakePhil(ps, names, woken);
            forall i :: 0 <= i < |ps| ==> (Suicidal(ps'[i]) <==> woken == Some(names[i]))
    ensures woken.Some? ==> woken.value in names || woken.value == MAIN
    ensures MAIN in q' <==> MAIN in q && woken != Some(MAIN)
  {
    hide Awaits, Suicidal, Grant;
    if woken.Some? {
      NoDuplicatesParts([woken.value], q');
      assert woken.value in q;
    }
    forall i | 0 <= i < |ps|
      ensures Suicidal(WakePhil(ps, names, woken)[i]) <==> woken == Some(names[i])
    {
      GrantFacts(ps[i]);
    }
  }

  // ------------------------------------------------------------------ every step

  lemma PhilStepKeeps(s: State, i: nat, stray: int)
    requires Inv(s) && CanGo(s, i)
    ensures Inv(PhilStep(s, i, stray))
  {
    hide Waiting, Guarded, Count, Amount;
    var s' := PhilStep(s, i, stray);
    PhilStepParts(s, i, stray);
    if s.phases[i] == Leaving {
      CountWithin(s.phases, Place);
    }
  }

  lemma LeftInside(s: State, i: nat)
    requires Waiting(s) && Guarded(s) && i < |s.phases| && s.phases[i] == Left
    ensures Mutex.Inside(s.lock) == Some(s.names[i]) && Deserted(SetPhase(s, i, OutSeat))
  {
    hide Mutex.Sane, Mutex.Inside, Queued;
    OtherNames(s.names, i);
    assert Suicidal(s.phases[i]);
  }

  lemma LeaveParts(s: State, i: nat, stray: int)
    requires Waiting(s) && Guarded(s) && Shaped(s) && i < |s.phases| && s.phases[i] == Leaving
    requires Waiting(SetPhase(s, i, Left)) && Guarded(SetPhase(s, i, Left))
    ensures Waiting(Leave(s, i, stray)) && Guarded(Leave(s, i, stray)) && s.main != Created
  {
    hide Mutex.Sane, Mutex.Inside, Queued;
    assert Suicidal(s.phases[i]);
  }

  /** What a philosopher's step keeps of the queues and of the totals. */
  lemma PhilStepParts(s: State, i: nat, stray: int)
    requires Waiting(s) && Guarded(s) && CanGo(s, i)
    ensures var s' := PhilStep(s, i, stray);
            && Waiting(s') && Guarded(s')
            && Shifts(s, s', 0, 0, if s.phases[i] == Leaving then -1 else 0)
            && (s.phases[i] != Leaving ==> SameBooks(s, s'))
            && (s.phases[i] == Leaving ==>
                  && s.main != Created && Amount(s.phases[i], Place) == 1
                  && SameBooks(s.(qty := s'.qty, toDie := s'.toDie, indexToDie := s'.indexToDie), s')
                  && s'.qty == s.qty - 1)
            && (s'.main == s.main || (s'.main == Born && s.main == BornOn) || (s'.main == Dying && s.main == DieOn))
  {
    hide Waiting, Guarded, Count, Mutex.Release, Mutex.Acquire, Semaphore.Wait, Semaphore.Signal, TakeLock, TakeSeat,
      TakeFork, GiveFork, GiveSeat, FreeLock;
    match s.phases[i] {
      case Thinking | Called => SetKeeps(s, i, PhilStep(s, i, stray).phases[i]);
      case WantSeat | OutSeat => TakeSeatKeeps(s, i);
      case Seated | OneFork | OutFork => TakeForkKeeps(s, i);
      case Eating => SetKeeps(s, i, Freed1); GiveForkKeeps(SetPhase(s, i, Freed1));
      case Freed1 => SetKeeps(s, i, Freed2); GiveForkKeeps(SetPhase(s, i, Freed2));
      case Freed2 => SetKeeps(s, i, Thinking); GiveSeatKeeps(SetPhase(s, i, Thinking));
      case WantOut => TakeLockKeeps(s, i);
      case Leaving => SetKeeps(s, i, Left); LeaveParts(s, i, stray);
      case Left =>
        SetKeeps(s, i, OutSeat);
        LeftInside(s, i);
        FreeLockKeeps(SetPhase(s, i, OutSeat), s.names[i]);
      case _ =>
    }
  }

  lemma MainLocksKeeps(s: State, inside: Main, blocked: Main)
    requires Inv(s) && s.main == Idle && ((inside == Born && blocked == BornOn) || (inside == Dying && blocked == DieOn))
    ensures Inv(MainLocks(s, inside, blocked))
  {
    hide Awaits, Count, Mutex.Sane, Mutex.Inside, Semaphore.Orderly, Mutex.Acquire, Suicidal, NoDuplicates;
    Mutex.AcquireExcludes(s.lock, MAIN);
    Mutex.NobodyWaits(s.lock);
    NoDuplicatesEnds(s.lock.queue, MAIN);
  }

  lemma MainFreesKeeps(s: State)
    requires Inv(s) && s.main == Unlocking
    ensures Inv(FreeLock(s.(main := Idle), MAIN))
  {
    hide Awaits, Count, Mutex.Sane, Mutex.Inside, Semaphore.Orderly, Suicidal, NoDuplicates, FreeLock, Queued;
    var s0 := s.(main := Idle);
    assert Waiting(s0) && Deserted(s0);
    FreeLockKeeps(s0, MAIN);
  }

  /** A new philosopher changes no queue, for it is not in one. */
  lemma QueuedNewborn(ps: seq<Phase>, names: seq<Thread>, q: seq<Thread>, r: Resource, t: Thread)
    requires Queued(ps, names, q, r) && t !in names && t != MAIN && r != Nothing
    ensures Queued(ps + [Thinking], names + [t], q, r)
  {
    hide NoDuplicates;
  }

  lemma CreateKeeps(s: State, t: Thread)
    requires Inv(s) && s.main == Signalled && t !in s.names && t != MAIN
    ensures Inv(Create(s, t))
  {
    hide Awaits, Count, Mutex.Sane, Mutex.Inside, Semaphore.Orderly, NoDuplicates, Queued;
    NoDuplicatesEnds(s.names, t);
    QueuedNewborn(s.phases, s.names, s.seats.queue, Seats, t);
    QueuedNewborn(s.phases, s.names, s.forks.queue, Forks, t);
    QueuedNewborn(s.phases, s.names, s.lock.queue, Lock, t);
    CountSnoc(s.phases, Thinking, Seat);
    CountSnoc(s.phases, Thinking, Fork);
    CountSnoc(s.phases, Thinking, Place);
  }

  lemma MainStepKeeps(s: State, t: Thread)
    requires Inv(s) && CanAct(s, MainNext(t))
    ensures Inv(Step(s, MainNext(t)))
  {
    hide Waiting, Guarded, Count, GiveSeat, GiveFork, FreeLock, Create;
    match s.main {
      case Born => GiveForkKeeps(s); MainStays(GiveFork(s)); MainStays(s);
      case Signalled => CreateKeeps(s, t);
      case Created => MainStays(s); CountWithin(s.phases, Place);
      case Counted => GiveSeatKeeps(s); MainStays(GiveSeat(s)); MainStays(s); CountWithin(s.phases, Place);
      case Dying => MainStays(s);
      case Unlocking => MainFreesKeeps(s);
      case _ =>
    }
  }

  /** The queues and the mutex do not see which statement the keyboard thread has reached inside. */
  lemma MainStays(s: State)
    requires Waiting(s) && Guarded(s) && MainInside(s.main)
    ensures forall s': State :: && MainInside(s'.main) && s'.lock == s.lock && s'.seats == s.seats && s'.forks == s.forks
                                && s'.names == s.names && s'.phases == s.phases
              ==> Waiting(s') && Guarded(s')
  {
    hide Mutex.Sane, Mutex.Inside, Semaphore.Orderly, Queued, NoDuplicates, Suicidal;
  }

  lemma StepKeeps(s: State, a: Act)
    requires Inv(s) && CanAct(s, a)
    ensures Inv(Step(s, a))
  {
    hide Inv, PhilStep, MainLocks;
    match a
    case BornCall => MainLocksKeeps(s, Born, BornOn);
    case DieCall => MainLocksKeeps(s, Dying, DieOn);
    case Go(i, stray) => PhilStepKeeps(s, i, stray);
    case MainNext(t) => MainStepKeeps(s, t);
  }

  // ------------------------------------------------------------------ every run

  /** Nobody was born yet. */
  ghost predicate Start(s: State) {
    && s.lock == Mutex.UNLOCKED && s.seats == Semaphore.SemState(0, []) && s.forks == Semaphore.SemState(0, [])
    && s.names == [] && s.phases == [] && s.ids == [] && s.main == Idle && s.qty == 0 && |s.phis| == MAX_PHI
    && s.toDie == 0 && s.nextId == 0 && s.indexToDie == 0
    && s.forksMade == 0 && s.seatsMade == 0 && s.alone == 0
  }

  ghost predicate Runs(s: State, acts: seq<Act>, t: State)
    decreases acts
  {
    if acts == [] then t == s else CanAct(s, acts[0]) && Runs(Step(s, acts[0]), acts[1..], t)
  }

  lemma {:induction false} RunsKeep(s: State, acts: seq<Act>, t: State)
    requires Inv(s) && Runs(s, acts, t)
    ensures Inv(t)
    decreases acts
  {
    hide Inv, Step, CanAct;
    if acts != [] {
      StepKeeps(s, acts[0]);
      RunsKeep(Step(s, acts[0]), acts[1..], t);
    }
  }

  lemma StartIsFine(s: State)
    requires Start(s)
    ensures Inv(s)
  {
    assert Amounts([], Seat) == [] && Amounts([], Fork) == [] && Amounts([], Place) == [];
  }

  /** The seats and forks that those who are gone took with them: one of each. */
  function Departed(ps: seq<Phase>): nat
    decreases ps
  {
    if ps == [] then 0 else (if ps[0] == Gone then 1 else 0) + Departed(ps[1..])
  }

  function TableSeats(s: State): int {
    SeatTotal(s) - Departed(s.phases)
  }

  function TableForks(s: State): int {
    ForkTotal(s) - Departed(s.phases)
  }

  /**
   On every run the table has fewer seats than forks: one fewer for each birth into an empty table, the
   first one included, and one fewer while a birth has made its fork and not yet its seat.
   */
  lemma SeatsBelowForks(s: State, acts: seq<Act>, t: State)
    requires Start(s) && Runs(s, acts, t)
    ensures TableSeats(t) + t.alone + (if Pending(t.main) then 1 else 0) == TableForks(t)
    ensures t.forksMade > 0 ==> TableSeats(t) <= TableForks(t) - 1
    ensures t.qty + (if t.main == Created then 1 else 0) == Count(t.phases, Place)
  {
    hide Count, Waiting, Guarded, Runs;
    StartIsFine(s);
    RunsKeep(s, acts, t);
  }

  /** A philosopher that sits at the table. */
  predicate Sits(p: Phase) {
    p != Gone && Amount(p, Seat) == 1
  }

  /** On every run: if anyone sits at the table, then someone who sits there is not blocked on a fork. */
  lemma SomeSeatedCanGoOn(s: State, acts: seq<Act>, t: State, i: nat)
    requires Start(s) && Runs(s, acts, t) && i < |t.phases| && Sits(t.phases[i])
    ensures exists j :: 0 <= j < |t.phases| && Sits(t.phases[j]) && CanGo(t, j)
  {
    hide Count, Runs, Mutex.Sane, NoDuplicates, Amount;
    StartIsFine(s);
    RunsKeep(s, acts, t);
    CountWithin(t.phases, Seat);
    SeatedFacts(t.phases[i]);
    if forall j :: 0 <= j < |t.phases| && Sits(t.phases[j]) ==> !CanGo(t, j) {
      forall j | 0 <= j < |t.phases|
        ensures Amount(t.phases[j], Fork) <= Amount(t.phases[j], Seat)
      {
        SeatedFacts(t.phases[j]);
      }
      CountAtMost(t.phases);
    }
  }

  lemma SeatedFacts(p: Phase)
    ensures Sits(p) && Awaits(p) != Nothing ==> Awaits(p) == Forks && Amount(p, Fork) <= 1
    ensures !Sits(p) ==> Amount(p, Fork) == Amount(p, Seat)
    ensures Sits(p) ==> Amount(p, Seat) == 1 && p != Gone
  {
  }

  lemma CountAtMost(ps: seq<Phase>)
    requires forall j :: 0 <= j < |ps| ==> Amount(ps[j], Fork) <= Amount(ps[j], Seat)
    ensures Count(ps, Fork) <= Count(ps, Seat)
  {
    hide Amount;
    SumAtMost(Amounts(ps, Fork), Amounts(ps, Seat));
  }

  lemma {:induction false} SittersCount(ps: seq<Phase>)
    ensures Count(ps, Seat) >= Departed(ps)
    ensures Count(ps, Seat) > Departed(ps) <==> exists j :: 0 <= j < |ps| && Sits(ps[j])
    decreases ps
  {
    hide Amount, Sits;
    if ps != [] {
      SittersCount(ps[1..]);
      assert Amounts(ps, Seat)[1..] == Amounts(ps[1..], Seat);
      HeadSeat(ps[0]);
      assert forall j :: 0 <= j < |ps[1..]| ==> ps[1..][j] == ps[j + 1];
    }
  }

  lemma HeadSeat(p: Phase)
    ensures Amount(p, Seat) == if Sits(p) || p == Gone then 1 else 0
    ensures Sits(p) ==> p != Gone
  {
  }

  /**
   Seats are lost: between two births, somebody sits or can sit exactly if there are more forks on the
   table than births that found the table empty. After the community died out once, two newborn
   philosophers have two forks and no seat.
   */
  lemma ASeatIsLeftIff(s: State, acts: seq<Act>, t: State)
    requires Start(s) && Runs(s, acts, t) && !Pending(t.main)
    ensures (t.seats.value > 0 || exists j :: 0 <= j < |t.phases| && Sits(t.phases[j])) <==> TableForks(t) > t.alone
  {
    hide Count, Runs, Guarded, Queued, Sits, Amount;
    StartIsFine(s);
    RunsKeep(s, acts, t);
    SittersCount(t.phases);
  }

  // ------------------------------------------------------------------ who leaves

  /** Philosophers are numbered in the order of their births, and the one to die is the last of the table. */
  ghost predicate Numbered(s: State) {
    && |s.phis| == MAX_PHI >= s.qty && s.nextId == |s.ids| && (forall i :: 0 <= i < |s.ids| ==> s.ids[i] == i)
    && (s.qty > 0 ==> s.indexToDie == s.phis[s.qty - 1])
  }

  lemma StepNumbers(s: State, a: Act)
    requires Numbered(s) && CanAct(s, a)
    ensures Numbered(Step(s, a))
  {
    hide Semaphore.Wait, Semaphore.Signal, Mutex.Acquire, Mutex.Release, WakePhil, WakeMain;
  }

  lemma {:induction false} RunsNumber(s: State, acts: seq<Act>, t: State)
    requires Numbered(s) && Runs(s, acts, t)
    ensures Numbered(t)
    decreases acts
  {
    hide Numbered, Step, CanAct;
    if acts != [] {
      StepNumbers(s, acts[0]);
      RunsNumber(Step(s, acts[0]), acts[1..], t);
    }
  }

  /**
   On every run: with anybody in the community, a philosopher goes to philosopherSuicide exactly if it is
   at the second read of its check and is the one that stands last in the table; there is only one of that
   number.
   */
  lemma TheLastOneLeaves(s: State, acts: seq<Act>, t: State, i: nat, stray: int)
    requires Start(s) && Runs(s, acts, t) && CanAct(t, Go(i, stray)) && t.qty > 0
    ensures |Step(t, Go(i, stray)).phases| == |t.phases|
    ensures Step(t, Go(i, stray)).phases[i] == WantOut <==> t.phases[i] == Called && t.ids[i] == t.phis[t.qty - 1]
    ensures forall j :: 0 <= j < |t.ids| ==> (t.ids[j] == t.ids[i] <==> j == i)
    ensures t.phases[i] == Leaving && t.qty > 1 ==> Step(t, Go(i, stray)).indexToDie == t.phis[t.qty - 2]
  {
    hide Runs, PhilStep;
    RunsNumber(s, acts, t);
    GoFollowsTheProgram(t, i, stray);
    if t.phases[i] == Leaving { LeaveIs(t, i, stray); }
  }

  lemma LeaveIs(s: State, i: nat, stray: int)
    requires CanGo(s, i) && s.phases[i] == Leaving
    ensures var s' := PhilStep(s, i, stray);
            && s'.qty == s.qty - 1 && s'.toDie == s.toDie - 1
            && s'.indexToDie == if s.qty > 1 then s.phis[s.qty - 2] else stray
  {
  }

  /** Which statement comes next for the philosopher that goes on; nobody else's moves but that of one who waits. */
  lemma GoFollowsTheProgram(s: State, i: nat, stray: int)
    requires CanGo(s, i)
    ensures var s' := PhilStep(s, i, stray);
            && |s'.phases| == |s.phases|
            && s'.phases[i] ==
               (match s.phases[i]
                case Thinking => if s.toDie > 0 then Called else WantSeat
                case Called => if s.ids[i] == s.indexToDie then WantOut else WantSeat
                case WantSeat => if s.seats.value != 0 then Seated else OnSeat
                case Seated => if s.forks.value != 0 then OneFork else OnFork1
                case OneFork => if s.forks.value != 0 then Eating else OnFork2
                case Eating => Freed1
                case Freed1 => Freed2
                case Freed2 => Thinking
                case WantOut => if s.lock.value == 0 then Leaving else OnLock
                case Leaving => Left
                case Left => OutSeat
                case OutSeat => if s.seats.value != 0 then OutFork else OnOutSeat
                case _ => if s.forks.value != 0 then Gone else OnOutFork)
            && forall j :: 0 <= j < |s.phases| && j != i ==>
                 s'.phases[j] == s.phases[j] || (Awaits(s.phases[j]) != Nothing && s'.phases[j] == Grant(s.phases[j]))
  {
    hide Semaphore.Signal, Mutex.Release;
    GrantOfTheFree();
  }

  lemma GrantOfTheFree()
    ensures forall p :: Awaits(p) == Nothing ==> Grant(p) == p
  {
  }

  /** What the statements of born and die do to the books: who is numbered, listed, counted and called. */
  lemma MainFollowsTheProgram(s: State, t: Thread)
    requires CanAct(s, MainNext(t))
    ensures var s' := Step(s, MainNext(t));
            match s.main
            case Born => s'.main == (if s.qty >= MAX_PHI then Unlocking else Signalled) && SameCommunity(s, s')
            case Signalled =>
              && s'.main == Created && s'.names == s.names + [t] && s'.ids == s.ids + [s.nextId]
              && s'.phases == s.phases + [Thinking] && s'.nextId == s.nextId + 1
              && s'.qty == s.qty && s'.toDie == s.toDie && s'.phis == s.phis && s'.indexToDie == s.indexToDie
            case Created =>
              && s'.main == Counted && s'.qty == s.qty + 1 && s'.phis == s.phis[s.qty := s.nextId - 1]
              && s'.indexToDie == s.nextId - 1
              && s'.ids == s.ids && s'.nextId == s.nextId && s'.toDie == s.toDie
            case Dying =>
              && s'.main == Unlocking && s'.toDie == (if s.qty == 0 then s.toDie else s.toDie + 1)
              && SameCommunity(s.(toDie := s'.toDie), s')
            case Unlocking => SameCommunity(s, s') && s'.main == Idle
            case _ => s'.main == Unlocking && SameCommunity(s, s')
  {
    hide Semaphore.Signal, WakePhil;
  }

  ghost predicate SameCommunity(s: State, s': State) {
    && s'.names == s.names && s'.ids == s.ids && s'.nextId == s.nextId && s'.qty == s.qty && s'.toDie == s.toDie
    && s'.phis == s.phis && s'.indexToDie == s.indexToDie
  }

  // ------------------------------------------------------------------ a run that loses a seat

  lemma {:induction false} RunsOn(s: State, acts: seq<Act>, t: State, more: seq<Act>, u: State)
    requires Runs(s, acts, t) && Runs(t, more, u)
    ensures Runs(s, acts + more, u)
    decreases acts
  {
    hide CanAct, Step;
    if acts == [] {
      assert acts + more == more;
    } else {
      RunsOn(Step(s, acts[0]), acts[1..], t, more, u);
      assert (acts + more)[1..] == acts[1..] + more;
    }
  }

  lemma OneAct(s: State, a: Act)
    requires CanAct(s, a)
    ensures Runs(s, [a], Step(s, a))
  {
    hide Step, CanAct;
    assert [a][1..] == [];
    assert Runs(Step(s, a), [], Step(s, a));
  }

  lemma NobodyWoken(ps: seq<Phase>, names: seq<Thread>)
    requires |ps| == |names|
    ensures WakePhil(ps, names, None) == ps
  {
  }

  /** Nobody is inside the mutex or waits for it or for a fork. */
  ghost predicate Calm(s: State) {
    && Shaped(s) && s.main == Idle && s.lock.value == 0 && s.lock.queue == [] && s.forks.queue == []
  }

  const LEFT_BY_MAIN := Mutex.MutexState(0, Some(MAIN), [])

  /** A birth up to its decision on a seat. */
  lemma BirthBegins(s: State, t: Thread) returns (u: State)
    requires Calm(s) && s.qty < MAX_PHI && t !in s.names && t != MAIN
    ensures Runs(s, [BornCall] + [MainNext(t)] + [MainNext(t)] + [MainNext(t)], u)
    ensures u == s.(lock := Mutex.MutexState(1, Some(MAIN), []), forks := Semaphore.SemState(s.forks.value + 1, []),
                    names := s.names + [t], phases := s.phases + [Thinking], ids := s.ids + [s.nextId],
                    main := Counted, nextId := s.nextId + 1, indexToDie := s.nextId, phis := s.phis[s.qty := s.nextId],
                    qty := s.qty + 1, forksMade := s.forksMade + 1)
  {
    hide Runs;
    var s1 := Step(s, BornCall);
    OneAct(s, BornCall);
    PoppedHead(s.forks.queue);
    NobodyWoken(s.phases, s.names);
    var s2 := Step(s1, MainNext(t));
    OneAct(s1, MainNext(t));
    RunsOn(s, [BornCall], s1, [MainNext(t)], s2);
    var s3 := Step(s2, MainNext(t));
    OneAct(s2, MainNext(t));
    RunsOn(s, [BornCall] + [MainNext(t)], s2, [MainNext(t)], s3);
    u := Step(s3, MainNext(t));
    OneAct(s3, MainNext(t));
    RunsOn(s, [BornCall] + [MainNext(t)] + [MainNext(t)], s3, [MainNext(t)], u);
  }

  /** The rest of it: a seat for everybody but the first at the table, then the mutex is free again. */
  lemma BirthEnds(s: State, t: Thread) returns (u: State)
    requires Shaped(s) && s.main == Counted && s.lock == Mutex.MutexState(1, Some(MAIN), [])
    ensures Runs(s, [MainNext(t)] + [MainNext(t)], u)
    ensures u == if s.qty > 1 then GiveSeat(s).(main := Idle, lock := LEFT_BY_MAIN, seatsMade := s.seatsMade + 1)
                 else s.(main := Idle, lock := LEFT_BY_MAIN, alone := s.alone + 1)
  {
    hide Runs, Semaphore.Signal;
    var s1 := Step(s, MainNext(t));
    OneAct(s, MainNext(t));
    NobodyWoken(s1.phases, s1.names);
    PoppedHead(s.lock.queue);
    u := Step(s1, MainNext(t));
    OneAct(s1, MainNext(t));
    RunsOn(s, [MainNext(t)], s1, [MainNext(t)], u);
  }

  /** die, with somebody there. */
  lemma DeathIsCalled(s: State, t: Thread) returns (u: State)
    requires Calm(s) && s.qty > 0
    ensures Runs(s, [DieCall] + [MainNext(t)] + [MainNext(t)], u)
    ensures u == s.(lock := LEFT_BY_MAIN, toDie := s.toDie + 1)
  {
    hide Runs;
    var s1 := Step(s, DieCall);
    OneAct(s, DieCall);
    var s2 := Step(s1, MainNext(t));
    OneAct(s1, MainNext(t));
    RunsOn(s, [DieCall], s1, [MainNext(t)], s2);
    NobodyWoken(s2.phases, s2.names);
    PoppedHead(s.lock.queue);
    u := Step(s2, MainNext(t));
    OneAct(s2, MainNext(t));
    RunsOn(s, [DieCall] + [MainNext(t)], s2, [MainNext(t)], u);
  }

  /** The last philosopher leaves the count and then waits for the seat that it was never given. */
  lemma LastOneLeaves(s: State, stray: int) returns (u: State)
    requires Calm(s) && s.phases == [Thinking] && s.toDie > 0 && s.qty == 1 && s.ids[0] == s.indexToDie
    requires s.seats == Semaphore.SemState(0, [])
    ensures Runs(s, [Go(0, stray)] + [Go(0, stray)] + [Go(0, stray)] + ([Go(0, stray)] + [Go(0, stray)] + [Go(0, stray)]), u)
    ensures u == s.(lock := Mutex.MutexState(0, Some(s.names[0]), []), phases := [OnOutSeat], qty := 0,
                    toDie := s.toDie - 1, indexToDie := stray, seats := Semaphore.SemState(0, [s.names[0]]))
  {
    hide Runs, Step;
    var a := Go(0, stray);
    var inside := LeavesCalled(s, stray);
    u := LeavesLocked(inside, stray);
    RunsOn(s, [a] + [a] + [a], inside, [a] + [a] + [a], u);
  }

  lemma LeavesCalled(s: State, stray: int) returns (u: State)
    requires Calm(s) && s.phases == [Thinking] && s.toDie > 0 && s.ids[0] == s.indexToDie
    ensures Runs(s, [Go(0, stray)] + [Go(0, stray)] + [Go(0, stray)], u)
    ensures u == s.(lock := Mutex.MutexState(1, Some(s.names[0]), []), phases := [Leaving])
  {
    hide Runs;
    var a := Go(0, stray);
    var s1 := Step(s, a);
    OneAct(s, a);
    assert s1.phases == [Called];
    var s2 := Step(s1, a);
    OneAct(s1, a);
    assert s2.phases == [WantOut];
    RunsOn(s, [a], s1, [a], s2);
    u := Step(s2, a);
    OneAct(s2, a);
    RunsOn(s, [a] + [a], s2, [a], u);
  }

  lemma LeavesLocked(s: State, stray: int) returns (u: State)
    requires Shaped(s) && s.phases == [Leaving] && s.qty == 1 && s.seats == Semaphore.SemState(0, [])
    requires s.lock == Mutex.MutexState(1, Some(s.names[0]), []) && s.main == Idle
    ensures Runs(s, [Go(0, stray)] + [Go(0, stray)] + [Go(0, stray)], u)
    ensures u == s.(lock := Mutex.MutexState(0, Some(s.names[0]), []), phases := [OnOutSeat], qty := 0,
                    toDie := s.toDie - 1, indexToDie := stray, seats := Semaphore.SemState(0, [s.names[0]]))
  {
    hide Runs;
    var a := Go(0, stray);
    var s1 := Step(s, a);
    OneAct(s, a);
    assert s1.phases == [Left];
    NobodyWoken([OutSeat], s.names);
    PoppedHead(s.lock.queue);
    var s2 := Step(s1, a);
    OneAct(s1, a);
    assert s2.phases == [OutSeat];
    RunsOn(s, [a], s1, [a], s2);
    u := Step(s2, a);
    OneAct(s2, a);
    assert [] + [s.names[0]] == [s.names[0]];
    RunsOn(s, [a] + [a], s2, [a], u);
  }

  /** A whole birth: into the empty table without a seat, otherwise with one. */
  lemma Birth(s: State, t: Thread) returns (acts: seq<Act>, u: State)
    requires Calm(s) && s.qty < MAX_PHI && t !in s.names && t != MAIN
    ensures Runs(s, acts, u)
    ensures var b := s.(lock := LEFT_BY_MAIN, forks := Semaphore.SemState(s.forks.value + 1, []),
                        names := s.names + [t], phases := s.phases + [Thinking], ids := s.ids + [s.nextId],
                        nextId := s.nextId + 1, indexToDie := s.nextId, phis := s.phis[s.qty := s.nextId],
                        qty := s.qty + 1, forksMade := s.forksMade + 1);
            u == if s.qty > 0 then GiveSeat(b).(seatsMade := s.seatsMade + 1) else b.(alone := s.alone + 1)
  {
    hide Runs, Semaphore.Signal;
    var v := BirthBegins(s, t);
    u := BirthEnds(v, t);
    acts := [BornCall] + [MainNext(t)] + [MainNext(t)] + [MainNext(t)];
    RunsOn(s, acts, v, [MainNext(t)] + [MainNext(t)], u);
    acts := acts + ([MainNext(t)] + [MainNext(t)]);
  }

  /** The seat of the third birth goes to the one that waits, who takes a fork with it and is gone. */
  lemma SeatIsTakenAway(s: State, c: Thread, stray: int) returns (acts: seq<Act>, u: State)
    requires Calm(s) && s.qty == 1 && s.phases == [OnOutSeat, Thinking] && NoDuplicates(s.names + [c]) && c != MAIN
    requires s.seats == Semaphore.SemState(0, [s.names[0]]) && s.forks == Semaphore.SemState(2, [])
    ensures Runs(s, acts, u) && u.phases == [Gone, Thinking, Thinking] && u.main == Idle && u.qty == 2
    ensures u.seats == Semaphore.SemState(0, []) && u.forks == Semaphore.SemState(2, [])
  {
    hide Runs;
    assert c !in s.names by { NoDuplicatesParts(s.names, [c]); assert forall x :: x in s.names ==> x !in [c]; }
    var v;
    acts, v := Birth(s, c);
    PoppedHead(s.seats.queue);
    assert v.phases == [OutFork, Thinking, Thinking] by { OnlyFirstWoken(s, c); }
    u := Step(v, Go(0, stray));
    OneAct(v, Go(0, stray));
    RunsOn(s, acts, v, [Go(0, stray)], u);
    acts := acts + [Go(0, stray)];
  }

  lemma OnlyFirstWoken(s: State, c: Thread)
    requires |s.names| == 2 && NoDuplicates(s.names + [c])
    ensures WakePhil([OnOutSeat, Thinking] + [Thinking], s.names + [c], Some(s.names[0])) == [OutFork, Thinking, Thinking]
  {
    var names := s.names + [c];
    assert names[0] != names[1] && names[0] != names[2];
  }

  /**
   The community dies out and two philosophers are born: a run that ends with both at the table, two forks
   and no seat, neither free nor taken.
   */
  lemma TwoForksAndNoSeat(s: State, a: Thread, b: Thread, c: Thread, stray: int) returns (acts: seq<Act>, t: State)
    requires Start(s) && NoDuplicates([a, b, c]) && MAIN !in [a, b, c]
    ensures Runs(s, acts, t)
    ensures t.phases == [Gone, Thinking, Thinking] && t.qty == 2 && t.main == Idle
    ensures TableForks(t) == t.forks.value == 2 && TableSeats(t) == t.seats.value == 0
  {
    hide Runs, Semaphore.Signal;
    ThreeNames(a, b, c);
    var one := FirstBirth(s, a);
    var called := DeathIsCalled(one.1, a);
    var gone := LastOneLeaves(called, stray);
    RunsOn(s, one.0, one.1, [DieCall] + [MainNext(a)] + [MainNext(a)], called);
    acts := one.0 + ([DieCall] + [MainNext(a)] + [MainNext(a)]);
    var leave := [Go(0, stray)] + [Go(0, stray)] + [Go(0, stray)] + ([Go(0, stray)] + [Go(0, stray)] + [Go(0, stray)]);
    RunsOn(s, acts, called, leave, gone);
    acts := acts + leave;
    var birth, two := Birth(gone, b);
    RunsOn(s, acts, gone, birth, two);
    acts := acts + birth;
    assert two.names == [a, b] && two.phases == [OnOutSeat, Thinking];
    assert two.names + [c] == [a, b, c];
    var last;
    last, t := SeatIsTakenAway(two, c, stray);
    RunsOn(s, acts, two, last, t);
    acts := acts + last;
    CountsAtTheEnd(t.phases);
  }

  lemma FirstBirth(s: State, a: Thread) returns (r: (seq<Act>, State))
    requires Start(s) && a != MAIN
    ensures Runs(s, r.0, r.1)
    ensures r.1 == s.(lock := LEFT_BY_MAIN, forks := Semaphore.SemState(1, []), names := [a], phases := [Thinking],
                      ids := [0], nextId := 1, indexToDie := 0, phis := s.phis[0 := 0], qty := 1, forksMade := 1, alone := 1)
  {
    hide Runs;
    var acts, u := Birth(s, a);
    r := (acts, u);
  }

  lemma ThreeNames(a: Thread, b: Thread, c: Thread)
    requires NoDuplicates([a, b, c]) && MAIN !in [a, b, c]
    ensures a != b && a != MAIN && b != MAIN && c != MAIN && a != c && b != c
  {
    var q := [a, b, c];
    assert q[0] == a && q[1] == b && q[2] == c;
  }

  lemma CountsAtTheEnd(ps: seq<Phase>)
    requires ps == [Gone, Thinking, Thinking]
    ensures Count(ps, Seat) == 1 && Count(ps, Fork) == 1 && Departed(ps) == 1
  {
    assert Amounts(ps, Seat) == [1, 0, 0] && Amounts(ps, Fork) == [1, 0, 0];
    SumOfThree([1, 0, 0]);
    assert Departed(ps) == 1 + Departed(ps[1..]) && Departed(ps[1..]) == Departed(ps[1..][1..]);
    assert ps[1..][1..][1..] == [];
  }

  lemma SumOfThree(q: seq<int>)
    requires |q| == 3
    ensures Sum(q) == q[0] + q[1] + q[2]
  {
    var r := q[1..];
    var l := r[1..];
    assert l[1..] == [] && Sum(l) == l[0] && Sum(r) == r[0] + Sum(l);
  }
}
