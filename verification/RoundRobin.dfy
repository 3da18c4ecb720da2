/** Kernel/roundRobin.c: the second scheduling level, one ring that turns at every pick. */
module RoundRobin {
  import opened Sequences
  import opened Options
  import opened Threads

  class RingQueue {
    var queue: seq<Thread>
    var threadCount: int

    ghost predicate Valid()
      reads this
    {
      threadCount == |queue|
    }

    constructor ()
      ensures Valid() && queue == []
    {
      queue := [];
      threadCount := 0;
    }

    method EnqueueThread(t: Thread)
      requires Valid()
      modifies this
      ensures Valid() && queue == old(queue) + [t]
    {
      queue := queue + [t];
      threadCount := threadCount + 1;
    }

    method RemoveThread(t: Thread) returns (removed: int)
      requires Valid()
      modifies this
      ensures Valid() && queue == RemoveFirst(old(queue), t)
      ensures removed == if t in old(queue) then 1 else 0
    {
      RemoveFirstLength(queue, t);
      var rest := RemoveFirst(queue, t);
      removed := |queue| - |rest|;
      queue := rest;
      threadCount := threadCount - removed;
    }

    method QueueSchedule() returns (t: Option<Thread>)
      requires Valid()
      modifies this
      ensures Valid()
      ensures old(queue) == [] ==> t == None && queue == []
      ensures old(queue) != [] ==> t == Some(old(queue)[0]) && queue == Rotate(old(queue))
    {
      if |queue| == 0 {
        return None;
      }
      t := Some(queue[0]);
      queue := queue[1..] + [queue[0]];
    }
  }
}
