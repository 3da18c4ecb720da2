/** What the scheduler and the blocking primitives know of a thread. */
module Threads {

  /** A thread control block, named by its process and its index in that process. */
  datatype Thread = Thread(pid: int, tid: int)

  /** The niceness of the process of each thread; setNiceness admits 0 to 5. */
  type Niceness = f: Thread -> int | forall t :: 0 <= f(t) <= 5 witness (_: Thread) => 0
}
