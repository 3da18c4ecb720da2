/**
 Kernel/roundRobinWithPriority.c: five priority queues and a backup queue that
 takes the place of the current one when a round of that priority is over.
 The whole structure turns out to be one rotating queue, `Order`.
 */
module PriorityRounds {
  import opened Sequences
  import opened Options
  import opened Threads

  const MAX_PRIORITY: int := 5

  /** `slices` holds the currTimeSlice of the threads that were picked at least once. */
  datatype Rounds = Rounds(queues: seq<seq<Thread>>, backup: seq<Thread>, current: int, slices: map<Thread, int>)

  predicate Shaped(r: Rounds) {
    |r.queues| == MAX_PRIORITY && 0 <= r.current < MAX_PRIORITY
  }

  /** Queue k holds threads of niceness k + 1 only, the backup those of the current priority. */
  ghost predicate Sorted(r: Rounds, nice: Niceness) {
    && Shaped(r)
    && SortedQueues(r.queues, nice)
    && (forall t :: t in r.backup ==> nice(t) == r.current + 1)
  }

  /** The priority reached n queues below p when m queues stand in a circle. */
  function Down(m: int, p: int, n: nat): (b: int)
    requires 0 <= p < m && n <= m
    ensures 0 <= b < m
  {
    if n <= p then p - n else p - n + m
  }

  /** The threads met when n queues are visited downwards from p. */
  function Walk(q: seq<seq<Thread>>, p: int, n: nat): seq<Thread>
    requires 0 <= p < |q| && n <= |q|
    decreases n
  {
    if n == 0 then [] else q[p] + Walk(q, Down(|q|, p, 1), n - 1)
  }

  /** Every queued thread, in the order in which getNext will come to it. */
  function Order(r: Rounds): seq<Thread>
    requires Shaped(r)
  {
    Walk(r.queues, r.current, |r.queues|) + r.backup
  }

  // ---------------------------------------------------------------- walks

  lemma {:induction false} WalkSplit(q: seq<seq<Thread>>, p: int, m: nat, n: nat)
    requires 0 <= p < |q| && m + n <= |q|
    ensures Walk(q, p, m + n) == Walk(q, p, m) + Walk(q, Down(|q|, p, m), n)
    decreases m
  {
    if m > 0 {
      WalkSplit(q, Down(|q|, p, 1), m - 1, n);
      assert Walk(q, p, m + n) == q[p] + Walk(q, Down(|q|, p, 1), m - 1 + n);
    }
  }

  /** A walk does not see the queues it does not visit. */
  lemma {:induction false} WalkFrame(q: seq<seq<Thread>>, q': seq<seq<Thread>>, p: int, n: nat)
    requires |q| == |q'| && 0 <= p < |q| && n <= |q|
    requires forall i :: 0 <= i < n ==> q[Down(|q|, p, i)] == q'[Down(|q|, p, i)]
    ensures Walk(q, p, n) == Walk(q', p, n)
    decreases n
  {
    if n > 0 {
      assert Down(|q|, p, 0) == p;
      forall i | 0 <= i < n - 1
        ensures q[Down(|q|, Down(|q|, p, 1), i)] == q'[Down(|q|, Down(|q|, p, 1), i)]
      {
        assert Down(|q|, p, i + 1) == Down(|q|, Down(|q|, p, 1), i);
      }
      WalkFrame(q, q', Down(|q|, p, 1), n - 1);
    }
  }

  lemma {:induction false} WalkMembers(q: seq<seq<Thread>>, p: int, n: nat, t: Thread)
    requires 0 <= p < |q| && n <= |q|
    ensures t in Walk(q, p, n) <==> exists i :: 0 <= i < n && t in q[Down(|q|, p, i)]
    decreases n
  {
    hide Down;
    if n > 0 {
      var m := |q|;
      DownSteps(m, p, n);
      var rest := Walk(q, Down(m, p, 1), n - 1);
      WalkMembers(q, Down(m, p, 1), n - 1, t);
      assert t in Walk(q, p, n) <==> t in q[p] || t in rest;
      assert forall i :: 0 <= i < n - 1 ==> q[Down(m, Down(m, p, 1), i)] == q[Down(m, p, i + 1)];
      if i :| 0 < i < n && t in q[Down(m, p, i)] {
        assert Down(m, Down(m, p, 1), i - 1) == Down(m, p, i);
      }
    }
  }

  lemma DownSteps(m: int, p: int, n: nat)
    requires 0 <= p < m && n <= m
    ensures Down(m, p, 0) == p
    ensures forall i :: 0 <= i < n ==> Down(m, Down(m, p, 1), i) == Down(m, p, i + 1)
  {
  }

  /** The order cut around the queue of one priority. */
  lemma OrderAround(r: Rounds, j: nat) returns (before: seq<Thread>, after: seq<Thread>)
    requires Shaped(r) && j < |r.queues|
    ensures before == Walk(r.queues, r.current, j)
    ensures after == Walk(r.queues, Down(|r.queues|, r.current, j + 1), |r.queues| - 1 - j) + r.backup
    ensures Order(r) == before + r.queues[Down(|r.queues|, r.current, j)] + after
  {
    var p := Down(|r.queues|, r.current, j);
    before := Walk(r.queues, r.current, j);
    after := Walk(r.queues, Down(|r.queues|, r.current, j + 1), |r.queues| - 1 - j) + r.backup;
    WalkSplit(r.queues, r.current, j, |r.queues| - j);
    assert Down(|r.queues|, p, 1) == Down(|r.queues|, r.current, j + 1);
  }

  // ------------------------------------------------------------ operations

  function Enqueue(r: Rounds, t: Thread, nice: Niceness): (r': Rounds)
    requires Shaped(r) && nice(t) > 0
    ensures Shaped(r') && r'.current == r.current && r'.slices == r.slices
  {
    var k := nice(t) - 1;
    if r.current == k then r.(backup := r.backup + [t])
    else r.(queues := r.queues[k := r.queues[k] + [t]])
  }

  function Remove(r: Rounds, t: Thread, nice: Niceness): (r': Rounds)
    requires Shaped(r) && nice(t) > 0
    ensures Shaped(r') && r'.current == r.current && r'.slices == r.slices
  {
    var k := nice(t) - 1;
    if t in r.queues[k] then r.(queues := r.queues[k := RemoveFirst(r.queues[k], t)])
    else if r.current == k then r.(backup := RemoveFirst(r.backup, t))
    else r
  }

  /** How many queues below p the first one stands that is not empty; n if there is none. */
  function FirstBusy(q: seq<seq<Thread>>, p: int, n: nat): (i: nat)
    requires 0 <= p < |q| && n <= |q|
    ensures i <= n
    ensures i < n ==> q[Down(|q|, p, i)] != []
    ensures forall j :: 0 <= j < i ==> q[Down(|q|, p, j)] == []
    decreases n
  {
    if n == 0 || q[p] != [] then 0
    else
      var i := 1 + FirstBusy(q, Down(|q|, p, 1), n - 1);
      assert forall j :: 0 < j <= i && j <= |q| ==> Down(|q|, p, j) == Down(|q|, Down(|q|, p, 1), j - 1);
      i
  }

  /** A finished round hands the backup back; the search then starts one priority lower. */
  function Begin(r: Rounds): (b: (Rounds, int))
    requires Shaped(r)
    ensures Shaped(b.0) && 0 <= b.1 < |b.0.queues|
  {
    if r.queues[r.current] == [] && r.backup != [] then
      (r.(queues := r.queues[r.current := r.backup], backup := []), Down(|r.queues|, r.current, 1))
    else (r, r.current)
  }

  function Pick(r: Rounds): (p: (Rounds, Option<Thread>))
    requires Shaped(r)
    ensures Shaped(p.0)
  {
    var (b, start) := Begin(r);
    var i := FirstBusy(b.queues, start, |b.queues|);
    if i == |b.queues| then (b, None)
    else
      var k := Down(|b.queues|, start, i);
      var t := b.queues[k][0];
      (Rounds(b.queues[k := b.queues[k][1..]], b.backup + [t], k, b.slices[t := 0]), Some(t))
  }

  /** rrwp_queueSchedule; `here` says whether the running thread belongs to this queue. */
  function Schedule(r: Rounds, force: bool, current: Thread, here: bool, nice: Niceness): (Rounds, Option<Thread>)
    requires Shaped(r) && (Order(r) != [] && here ==> current in r.slices)
  {
    if Order(r) == [] then (r, None)
    else if here && !force && r.slices[current] % (nice(current) + 3) != 0 then
      (r.(slices := r.slices[current := r.slices[current] + 1]), Some(current))
    else Pick(r)
  }

  /**
   The running thread of this queue: forced, or with its slice at 0 or at three more than its niceness, it
   gives way to the next one; in between it goes on, one tick further in its slice.
   */
  lemma SliceOfAThread(r: Rounds, t: Thread, nice: Niceness)
    requires Shaped(r) && Order(r) != [] && t in r.slices && nice(t) > 0 && 0 <= r.slices[t] <= nice(t) + 3
    ensures var n := r.slices[t];
            && Schedule(r, true, t, true, nice) == Pick(r)
            && Schedule(r, false, t, true, nice) ==
               if 0 < n < nice(t) + 3 then (r.(slices := r.slices[t := n + 1]), Some(t)) else Pick(r)
  {
    hide Order, Pick;
  }

  /** The swap changes no position of the order, and leaves a busy queue to be found. */
  lemma BeginKeepsOrder(r: Rounds)
    requires Shaped(r)
    ensures var (b, start) := Begin(r);
            && Walk(b.queues, start, |b.queues|) + b.backup == Order(r)
            && (r.queues[r.current] == [] ==> b.backup == [])
            && (Order(r) != [] ==> FirstBusy(b.queues, start, |b.queues|) < |b.queues|)
  {
    var (b, start) := Begin(r);
    var q, c := b.queues, r.current;
    if r.queues[c] == [] && r.backup != [] {
      assert Walk(r.queues, c, |q|) == Walk(r.queues, start, |q| - 1);
      WalkFrame(r.queues, q, start, |q| - 1);
      WalkSplit(q, start, |q| - 1, 1);
      assert Down(|q|, start, |q| - 1) == c;
      assert Walk(q, c, 1) == q[c];
    }
    if Order(r) != [] && r.queues[c] == [] {
      var t := Order(r)[0];
      WalkMembers(q, start, |q|, t);
    } else if Order(r) != [] {
      assert Down(|q|, c, 0) == c;
    }
  }

  lemma {:induction false} EmptyWalk(q: seq<seq<Thread>>, p: int, n: nat)
    requires 0 <= p < |q| && n <= |q|
    requires forall i :: 0 <= i < n ==> q[Down(|q|, p, i)] == []
    ensures Walk(q, p, n) == []
  {
    if Walk(q, p, n) != [] {
      WalkMembers(q, p, n, Walk(q, p, n)[0]);
    }
  }

  /** What a walk reads before and after the head of the first busy queue is taken. */
  lemma TakeHead(q: seq<seq<Thread>>, start: int, i: nat, q': seq<seq<Thread>>) returns (rest: seq<Thread>)
    requires 0 <= start < |q| && i < |q|
    requires forall j :: 0 <= j < i ==> q[Down(|q|, start, j)] == []
    requires q[Down(|q|, start, i)] != [] && q' == q[Down(|q|, start, i) := q[Down(|q|, start, i)][1..]]
    ensures Walk(q, start, |q|) == q[Down(|q|, start, i)] + rest
    ensures Walk(q', Down(|q|, start, i), |q'|) == q[Down(|q|, start, i)][1..] + rest
  {
    var p, n := Down(|q|, start, i), |q| - 1 - i;
    rest := Walk(q, Down(|q|, p, 1), n);
    WalkSplit(q, start, i, n + 1);
    EmptyWalk(q, start, i);
    WalkSplit(q', Down(|q|, p, 1), n, i);
    forall j | 0 <= j < n
      ensures q[Down(|q|, Down(|q|, p, 1), j)] == q'[Down(|q|, Down(|q|, p, 1), j)]
    {
      assert Down(|q|, Down(|q|, p, 1), j) != p;
    }
    WalkFrame(q, q', Down(|q|, p, 1), n);
    var wrapped := Down(|q|, Down(|q|, p, 1), n);
    forall j | 0 <= j < i
      ensures q'[Down(|q|, wrapped, j)] == []
    {
      assert wrapped == start && Down(|q|, start, j) != p;
    }
    EmptyWalk(q', wrapped, i);
  }

  /** Where the thread comes from that is picked, and which backup it joins. */
  lemma PickSource(r: Rounds) returns (b: Rounds, start: int, i: nat)
    requires Shaped(r) && Order(r) != []
    ensures Shaped(b) && 0 <= start < |b.queues| && i < |b.queues| && b == Begin(r).0
    ensures Walk(b.queues, start, |b.queues|) + b.backup == Order(r)
    ensures b.backup == [] || (b == r && Down(|b.queues|, start, i) == r.current)
    ensures forall j :: 0 <= j < i ==> b.queues[Down(|b.queues|, start, j)] == []
    ensures var p := Down(|b.queues|, start, i);
            var q := b.queues[p];
            && q != []
            && Pick(r) == (Rounds(b.queues[p := q[1..]], b.backup + [q[0]], p, b.slices[q[0] := 0]), Some(q[0]))
  {
    hide Walk, Order;
    BeginKeepsOrder(r);
    b := Begin(r).0;
    start := Begin(r).1;
    i := FirstBusy(b.queues, start, |b.queues|);
    assert Down(|b.queues|, start, 0) == start;
  }

  /** One getNext is exactly one turn of the rotating queue. */
  lemma PickRotates(r: Rounds)
    requires Shaped(r) && Order(r) != []
    ensures var (r', t) := Pick(r);
            && t == Some(Order(r)[0]) && Order(r') == Rotate(Order(r)) && r'.slices == r.slices[Order(r)[0] := 0]
  {
    hide Walk, Pick, FirstBusy;
    var b, start, i := PickSource(r);
    var (r', t) := Pick(r);
    var q := b.queues[r'.current];
    var rest := TakeHead(b.queues, start, i, r'.queues);
    hide Order;
    assert q == [q[0]] + q[1..];
    assert Order(r) == [q[0]] + (q[1..] + rest + b.backup);
  }

  /** With nothing queued getNext finds nothing and changes nothing. */
  lemma PickNothing(r: Rounds)
    requires Shaped(r) && Order(r) == []
    ensures Pick(r) == (r, None)
  {
    var i := FirstBusy(r.queues, r.current, |r.queues|);
    if i < |r.queues| {
      var before, after := OrderAround(r, i);
    }
  }

  lemma PickSorted(r: Rounds, nice: Niceness)
    requires Sorted(r, nice) && Order(r) != []
    ensures Sorted(Pick(r).0, nice) && Pick(r).0.current == nice(Order(r)[0]) - 1
  {
    hide Walk, Order, Pick;
    PickRotates(r);
    var b, start, i := PickSource(r);
    assert SortedQueues(b.queues, nice);
    PoppedSorted(b.queues, Down(|b.queues|, start, i), nice);
  }

  ghost predicate SortedQueues(q: seq<seq<Thread>>, nice: Niceness) {
    |q| == MAX_PRIORITY && forall k, t :: 0 <= k < MAX_PRIORITY && t in q[k] ==> nice(t) == k + 1
  }

  lemma PoppedSorted(q: seq<seq<Thread>>, p: int, nice: Niceness)
    requires SortedQueues(q, nice) && 0 <= p < MAX_PRIORITY && q[p] != []
    ensures SortedQueues(q[p := q[p][1..]], nice) && nice(q[p][0]) == p + 1
  {
    assert q[p][0] in q[p];
    assert forall t :: t in q[p][1..] ==> t in q[p];
  }

  // ------------------------------------------- enqueueing and removing

  /** How many queues below the current one the queue of priority k stands. */
  function StepsTo(r: Rounds, k: int): (j: nat)
    requires Shaped(r) && 0 <= k < |r.queues|
    ensures j < |r.queues| && Down(|r.queues|, r.current, j) == k
  {
    if k <= r.current then r.current - k else r.current - k + |r.queues|
  }

  /**
   A new thread comes in behind every queued thread of its own niceness and in front of all the
   others that stood behind those: nobody else changes places.
   */
  lemma EnqueueInserts(r: Rounds, t: Thread, nice: Niceness) returns (before: seq<Thread>, after: seq<Thread>)
    requires Sorted(r, nice) && nice(t) > 0
    ensures Sorted(Enqueue(r, t, nice), nice)
    ensures Order(r) == before + after && Order(Enqueue(r, t, nice)) == before + [t] + after
    ensures r.current == nice(t) - 1 ==> after == []
    ensures forall u :: u in after ==> nice(u) != nice(t)
  {
    hide Walk;
    var k := nice(t) - 1;
    var r' := Enqueue(r, t, nice);
    if r.current == k {
      before, after := Order(r), [];
    } else {
      hide Order;
      var j := StepsTo(r, k);
      var head, tail := OrderAround(r, j);
      var head', tail' := OrderAround(r', j);
      FrameAround(r, r', j);
      before, after := head + r.queues[k], tail;
      forall u | u in after
        ensures nice(u) != nice(t)
      {
        AfterIsOther(r, j, u, nice);
      }
    }
  }

  /** Changing one queue leaves what the walk reads before and after it. */
  lemma FrameAround(r: Rounds, r': Rounds, j: nat)
    requires Shaped(r) && Shaped(r') && r.current == r'.current && r.backup == r'.backup && j < |r.queues|
    requires forall i :: 0 <= i < |r.queues| && i != Down(|r.queues|, r.current, j) ==> r.queues[i] == r'.queues[i]
    ensures Walk(r.queues, r.current, j) == Walk(r'.queues, r.current, j)
    ensures var p, n := Down(|r.queues|, r.current, j + 1), |r.queues| - 1 - j;
            Walk(r.queues, p, n) == Walk(r'.queues, p, n)
  {
    var m := |r.queues|;
    var p, n := Down(m, r.current, j + 1), m - 1 - j;
    assert forall i :: 0 <= i < j ==> Down(m, r.current, i) != Down(m, r.current, j);
    WalkFrame(r.queues, r'.queues, r.current, j);
    assert forall i :: 0 <= i < n ==> Down(m, p, i) != Down(m, r.current, j);
    WalkFrame(r.queues, r'.queues, p, n);
  }

  /** Behind the queue of priority k, other than the current one, no thread of that priority stands. */
  lemma AfterIsOther(r: Rounds, j: nat, u: Thread, nice: Niceness)
    requires Sorted(r, nice) && 0 < j < |r.queues|
    requires u in Walk(r.queues, Down(|r.queues|, r.current, j + 1), |r.queues| - 1 - j) + r.backup
    ensures nice(u) != Down(|r.queues|, r.current, j) + 1
  {
    var m := |r.queues|;
    if u !in r.backup {
      var p, n := Down(m, r.current, j + 1), m - 1 - j;
      WalkMembers(r.queues, p, n, u);
      var i :| 0 <= i < n && u in r.queues[Down(m, p, i)];
      assert Down(m, p, i) != Down(m, r.current, j);
    }
  }

  lemma BeforeIsOther(r: Rounds, j: nat, u: Thread, nice: Niceness)
    requires Sorted(r, nice) && j < |r.queues|
    requires u in Walk(r.queues, r.current, j)
    ensures nice(u) != Down(|r.queues|, r.current, j) + 1
  {
    WalkMembers(r.queues, r.current, j, u);
    var i :| 0 <= i < j && u in r.queues[Down(|r.queues|, r.current, i)];
  }

  /** Removing a thread drops its first place in the order and moves nobody else. */
  lemma RemoveDrops(r: Rounds, t: Thread, nice: Niceness)
    requires Sorted(r, nice) && nice(t) > 0
    ensures Sorted(Remove(r, t, nice), nice)
    ensures Order(Remove(r, t, nice)) == RemoveFirst(Order(r), t)
  {
    hide Walk, RemoveUpTo;
    var k := nice(t) - 1;
    var r' := Remove(r, t, nice);
    var j := StepsTo(r, k);
    var head, tail := OrderAround(r, j);
    if t in head { BeforeIsOther(r, j, t, nice); }
    assert Order(r) == head + (r.queues[k] + tail);
    RemoveFirstConcat(head, r.queues[k] + tail, t);
    RemoveFirstConcat(r.queues[k], tail, t);
    RemoveFirstMembers(r.queues[k], t);
    RemoveFirstMembers(r.backup, t);
    if t in r.queues[k] {
      var head', tail' := OrderAround(r', j);
      FrameAround(r, r', j);
    } else {
      var w := Walk(r.queues, r.current, |r.queues|);
      if t in w { OtherQueue(r, t, k, nice); }
      RemoveFirstConcat(w, r.backup, t);
      if r.current != k { RemoveFirstAbsent(r.backup, t, 1); }
    }
  }

  lemma OtherQueue(r: Rounds, t: Thread, k: int, nice: Niceness)
    requires Sorted(r, nice) && nice(t) == k + 1 && 0 <= k < |r.queues| && t in Walk(r.queues, r.current, |r.queues|)
    ensures t in r.queues[k]
  {
    WalkMembers(r.queues, r.current, |r.queues|, t);
  }

  /** A queued thread stands in the queue of its own priority or in the backup. */
  lemma MembersByQueue(r: Rounds, t: Thread, nice: Niceness)
    requires Sorted(r, nice) && nice(t) > 0
    ensures t in Order(r) <==> t in r.queues[nice(t) - 1] || (r.current == nice(t) - 1 && t in r.backup)
  {
    hide Walk;
    var j := StepsTo(r, nice(t) - 1);
    var head, tail := OrderAround(r, j);
    if t in head { BeforeIsOther(r, j, t, nice); }
    if t in Walk(r.queues, r.current, |r.queues|) { OtherQueue(r, t, nice(t) - 1, nice); }
  }

  lemma {:induction false} RemoveFirstMembers(s: seq<Thread>, t: Thread)
    ensures forall u :: u in RemoveFirst(s, t) ==> u in s
  {
    RemoveFirstMultiset(s, t);
    forall u | u in RemoveFirst(s, t)
      ensures u in s
    {
      assert u in multiset(RemoveFirst(s, t));
    }
  }

  // ---------------------------------------------------------------- fairness

  /** k calls of getNext in a row: the queues they leave, and the threads they return. */
  ghost function Picks(r: Rounds, k: nat): (p: (Rounds, seq<Thread>))
    requires Shaped(r)
    ensures Shaped(p.0)
  {
    if k == 0 then (r, [])
    else
      var (b, s) := Picks(r, k - 1);
      var (b', t) := Pick(b);
      (b', if t.Some? then s + [t.value] else s)
  }

  lemma {:induction false} PicksFollowOrder(r: Rounds, k: nat)
    requires Shaped(r) && Order(r) != []
    ensures Order(Picks(r, k).0) == RotateBy(Order(r), k)
    ensures k <= |Order(r)| ==> Picks(r, k).1 == Order(r)[..k]
  {
    hide Order, Pick;
    if k > 0 {
      PicksFollowOrder(r, k - 1);
      var b := Picks(r, k - 1).0;
      PickRotates(b);
      if k <= |Order(r)| {
        RotateByCut(Order(r), k - 1);
        assert Order(b) == Order(r)[k - 1..] + Order(r)[..k - 1];
        assert Order(b)[0] == Order(r)[k - 1];
        assert Order(r)[..k] == Order(r)[..k - 1] + [Order(r)[k - 1]];
      }
    }
  }

  /**
   Round-robin fairness: with nothing enqueued or removed in between, any threadCount consecutive
   calls of getNext, counted from any call on, return every queued thread exactly as often as it is
   queued, and leave the order as it was, so that the picks repeat with that period.
   */
  lemma AnyWindowIsFair(r: Rounds, k: nat)
    requires Shaped(r) && Order(r) != []
    ensures var b := Picks(r, k).0;
            var (b', picked) := Picks(b, |Order(r)|);
            picked == Order(b) == Order(b') && multiset(picked) == multiset(Order(r))
  {
    hide Order, Pick, Picks;
    var n, b := |Order(r)|, Picks(r, k).0;
    PicksFollowOrder(r, k);
    RotateByMultiset(Order(r), k);
    PicksFollowOrder(b, n);
    RotateByCut(Order(b), n);
  }

  // -------------------------------------- bounded waiting in a changing queue

  datatype Event = PickNext | Arrive(t: Thread) | Leave(t: Thread)

  ghost predicate Possible(r: Rounds, e: Event, nice: Niceness)
    requires Shaped(r)
  {
    match e
    case PickNext => Order(r) != []
    case Arrive(t) => nice(t) > 0
    case Leave(t) => nice(t) > 0
  }

  ghost function After(r: Rounds, e: Event, nice: Niceness): Rounds
    requires Shaped(r) && Possible(r, e, nice)
  {
    match e
    case PickNext => Pick(r).0
    case Arrive(t) => Enqueue(r, t, nice)
    case Leave(t) => Remove(r, t, nice)
  }

  /** A run that neither picks t nor takes it out of the queues. */
  ghost predicate PassesOver(r: Rounds, es: seq<Event>, t: Thread, nice: Niceness)
    requires Shaped(r)
    decreases es
  {
    if es == [] then true
    else
      && Possible(r, es[0], nice)
      && (es[0].PickNext? ==> Pick(r).1 != Some(t))
      && es[0] != Leave(t)
      && Shaped(After(r, es[0], nice))
      && PassesOver(After(r, es[0], nice), es[1..], t, nice)
  }

  function Count(es: seq<Event>, picks: bool): nat {
    if es == [] then 0
    else Count(es[1..], picks) + if (if picks then es[0].PickNext? else es[0].Arrive?) then 1 else 0
  }

  /**
   Bounded waiting on every run: however threads come and go, a queued thread is passed over by
   getNext at most once for each thread in front of it and once for each arrival.
   */
  lemma {:induction false} BoundedWaiting(r: Rounds, es: seq<Event>, t: Thread, nice: Niceness)
    requires Sorted(r, nice) && t in Order(r) && PassesOver(r, es, t, nice)
    ensures Count(es, true) <= IndexOf(Order(r), t) + Count(es, false)
    decreases es
  {
    hide Order, Pick, Enqueue, Remove;
    if es != [] {
      var r' := After(r, es[0], nice);
      OneEvent(r, es[0], t, nice);
      BoundedWaiting(r', es[1..], t, nice);
    }
  }

  lemma OneEvent(r: Rounds, e: Event, t: Thread, nice: Niceness)
    requires Sorted(r, nice) && t in Order(r) && Possible(r, e, nice)
    requires (e.PickNext? ==> Pick(r).1 != Some(t)) && e != Leave(t)
    ensures Sorted(After(r, e, nice), nice) && t in Order(After(r, e, nice))
    ensures IndexOf(Order(After(r, e, nice)), t)
         <= IndexOf(Order(r), t) + (if e.PickNext? then -1 else if e.Arrive? then 1 else 0)
  {
    hide Order, Pick, Enqueue, Remove, RemoveFirst;
    var s := Order(r);
    match e
    case PickNext =>
      PickRotates(r);
      PickSorted(r, nice);
      IndexOfConcat(s[1..], [s[0]], t);
    case Arrive(u) =>
      var before, after := EnqueueInserts(r, u, nice);
      IndexOfConcat(before, after, t);
      IndexOfConcat(before + [u], after, t);
      if t in before { IndexOfConcat(before, [u], t); }
    case Leave(u) =>
      RemoveDrops(r, u, nice);
      IndexOfRemove(s, u, t);
  }

  lemma {:induction false} IndexOfRemove(s: seq<Thread>, u: Thread, t: Thread)
    requires t in s && u != t
    ensures t in RemoveFirst(s, u) && IndexOf(RemoveFirst(s, u), t) <= IndexOf(s, t)
  {
    if s[0] == u {
      assert RemoveUpTo(s[1..], u, 0) == s[1..];
    } else if s[0] != t {
      IndexOfRemove(s[1..], u, t);
      var rest := RemoveFirst(s[1..], u);
      assert RemoveFirst(s, u) == [s[0]] + rest;
      IndexOfConcat([s[0]], rest, t);
    } else {
      assert RemoveFirst(s, u)[0] == t;
    }
  }

  lemma RemoveCounts(r: Rounds, t: Thread, nice: Niceness)
    requires Sorted(r, nice) && nice(t) > 0
    ensures Shaped(r) && Sorted(Remove(r, t, nice), nice)
    ensures |Order(Remove(r, t, nice))| == |Order(r)| - if t in Order(r) then 1 else 0
    ensures var q := r.queues[nice(t) - 1];
            && (t in Order(r) <==> t in q || (r.current == nice(t) - 1 && t in r.backup))
            && |RemoveFirst(q, t)| == |q| - (if t in q then 1 else 0) && (t !in q ==> RemoveFirst(q, t) == q)
    ensures |RemoveFirst(r.backup, t)| == |r.backup| - if t in r.backup then 1 else 0
  {
    hide Order, Walk, RemoveUpTo;
    var q := r.queues[nice(t) - 1];
    RemoveDrops(r, t, nice);
    RemoveFirstLength(Order(r), t);
    RemoveFirstLength(q, t);
    RemoveFirstLength(r.backup, t);
    if t !in q { RemoveFirstAbsent(q, t, 1); }
    MembersByQueue(r, t, nice);
  }

  lemma BeginCases(r: Rounds)
    requires Shaped(r)
    ensures var m, c := |r.queues|, r.current;
            Begin(r) == if r.queues[c] == [] && r.backup != []
                        then (r.(queues := r.queues[c := r.backup], backup := []), if c == 0 then m - 1 else c - 1)
                        else (r, c)
  {
  }

  lemma SearchStarts(r: Rounds, nice: Niceness)
    requires Sorted(r, nice)
    ensures Shaped(r)
    ensures Order(r) == [] ==> Pick(r) == (r, None) && Begin(r) == (r, r.current)
    ensures Order(r) != [] ==>
              && var (b, start) := Begin(r);
              && FirstBusy(b.queues, start, |b.queues|) < |b.queues|
              && Sorted(Pick(r).0, nice) && |Order(Pick(r).0)| == |Order(r)|
  {
    if Order(r) != [] {
      BeginKeepsOrder(r);
      PickRotates(r);
      PickSorted(r, nice);
      hide Walk, Pick, FirstBusy, Sorted;
    } else {
      PickNothing(r);
    }
  }

  /** A search that is not past the first busy queue and sees a busy one has found it. */
  lemma SearchStops(r: Rounds, j: nat)
    requires Shaped(r) && Order(r) != [] && j < |r.queues|
    requires var (b, start) := Begin(r);
             j <= FirstBusy(b.queues, start, |b.queues|) && FirstBusy(b.queues, start, |b.queues|) < |b.queues|
    ensures var (b, start) := Begin(r);
            var p := Down(|b.queues|, start, j);
            if b.queues[p] == [] then j < FirstBusy(b.queues, start, |b.queues|)
            else Pick(r) == (Rounds(b.queues[p := b.queues[p][1..]], b.backup + [b.queues[p][0]], p,
                                    b.slices[b.queues[p][0] := 0]), Some(b.queues[p][0]))
  {
    hide Order, Walk;
  }

  // ---------------------------------------------------------- the C queue

  /** SCHEDULER_QUEUE with data_RoundRobinWithPriority behind it. */
  class PriorityQueue {
    const nice: Niceness
    var queues: seq<seq<Thread>>
    var backupQueue: seq<Thread>
    var currentPriority: int
    var threadCount: int
    var slices: map<Thread, int>  // thread_t.currTimeSlice

    ghost function State(): Rounds
      reads this
    {
      Rounds(queues, backupQueue, currentPriority, slices)
    }

    ghost predicate Valid()
      reads this
    {
      Sorted(State(), nice) && threadCount == |Order(State())|
    }

    constructor (nice: Niceness)
      ensures Valid() && this.nice == nice
      ensures Order(State()) == [] && State().current == MAX_PRIORITY - 1
    {
      this.nice := nice;
      queues := seq(MAX_PRIORITY, _ => []);
      backupQueue := [];
      currentPriority := MAX_PRIORITY - 1;
      threadCount := 0;
      slices := map[];
      new;
      EmptyWalk(queues, currentPriority, |queues|);
    }

    /** Niceness 0 is the caller's to forward to the next queue. */
    method EnqueueThread(t: Thread) returns (forward: bool)
      requires Valid()
      modifies this
      ensures Valid() && forward == (nice(t) == 0)
      ensures State() == if forward then old(State()) else Enqueue(old(State()), t, nice)
    {
      hide Order, Walk, SortedQueues;
      var currNice := nice(t);
      if currNice == 0 {
        return true;
      }
      ghost var before, after := EnqueueInserts(State(), t, nice);
      if currentPriority == currNice - 1 {
        backupQueue := backupQueue + [t];
      } else {
        queues := queues[currNice - 1 := queues[currNice - 1] + [t]];
      }
      threadCount := threadCount + 1;
      return false;
    }

    method RemoveThread(t: Thread) returns (removed: int)
      requires Valid() && nice(t) > 0
      modifies this
      ensures Valid() && State() == Remove(old(State()), t, nice)
      ensures removed == if t in Order(old(State())) then 1 else 0
    {
      hide Order, Walk, RemoveUpTo, Sorted, SortedQueues;
      ghost var was := State();
      var currNice := nice(t);
      RemoveCounts(was, t, nice);
      var shorter := RemoveFirst(queues[currNice - 1], t);
      removed := |queues[currNice - 1]| - |shorter|;
      queues := queues[currNice - 1 := shorter];
      if removed == 0 {
        assert queues == was.queues;
        if currentPriority == currNice - 1 {
          var rest := RemoveFirst(backupQueue, t);
          removed := removed + |backupQueue| - |rest|;
          backupQueue := rest;
        }
      }
      threadCount := threadCount - removed;
    }

    method GetNext() returns (t: Option<Thread>)
      requires Valid()
      modifies this
      ensures Valid()
      ensures (State(), t) == Pick(old(State()))
    {
      hide Order, Walk, FirstBusy, Sorted, SortedQueues, Pick, Begin;
      ghost var was := State();
      SearchStarts(was, nice);
      t := None;
      var currPriority := currentPriority;
      if |queues[currPriority]| == 0 && |backupQueue| > 0 {
        var aux := queues[currPriority];
        queues := queues[currPriority := backupQueue];
        backupQueue := aux;
        currPriority := currPriority - 1;
        if currPriority < 0 {
          currPriority := MAX_PRIORITY - 1;
        }
      }
      ghost var (b, start) := Begin(was);
      BeginCases(was);
      ghost var j := 0;
      while threadCount > 0 && t == None
        invariant threadCount == old(threadCount) && j <= |b.queues|
        invariant t == None ==> State() == b && currPriority == Down(|b.queues|, start, j)
        invariant t == None && threadCount > 0 ==> j <= FirstBusy(b.queues, start, |b.queues|)
        invariant t != None ==> threadCount > 0 && (State(), t) == Pick(was)
        decreases t == None, |b.queues| - j
      {
        SearchStops(was, j);
        if |queues[currPriority]| > 0 {
          currentPriority := currPriority;
          t := Some(queues[currPriority][0]);
          queues := queues[currPriority := queues[currPriority][1..]];
          slices := slices[t.value := 0];
          backupQueue := backupQueue + [t.value];
        }
        currPriority := currPriority - 1;
        if currPriority < 0 {
          currPriority := MAX_PRIORITY - 1;
        }
        j := j + 1;
      }
    }

    method QueueSchedule(force: bool, current: Thread, here: bool) returns (t: Option<Thread>)
      requires Valid()
      requires threadCount > 0 && here ==> current in slices
      modifies this
      ensures Valid()
      ensures (State(), t) == Schedule(old(State()), force, current, here, nice)
    {
      hide Walk, Pick, SortedQueues;
      if threadCount == 0 {
        return None;
      }
      if here && slices[current] % (nice(current) + 3) != 0 && !force {
        slices := slices[current := slices[current] + 1];
        return Some(current);
      }
      t := GetNext();
    }
  }
}
