/**
 Kernel/fileSystem.c, the pipes: a ring of bytes between readers and writers, each side let in by a
 semaphore that holds at most one token.
 */
module Pipe {
  import opened Sequences
  import opened Options
  import opened Threads
  import opened Semaphore

  const BUFFER_SIZE := 4096

  // -------------------------------------------------------------------- the ring

  predicate Ringed(c: seq<char>, r: int, w: int) {
    |c| == BUFFER_SIZE && 0 <= r < BUFFER_SIZE && 0 <= w < BUFFER_SIZE
  }

  function Next(i: int): int {
    if i + 1 == BUFFER_SIZE then 0 else i + 1
  }

  /** How many bytes a writer takes to be free: the whole ring when the cursors are equal. */
  function Room(r: int, w: int): int {
    if r - w > 0 then r - w else BUFFER_SIZE + (r - w)
  }

  /** How many bytes a reader takes to be there: none when the cursors are equal. */
  function Stock(r: int, w: int): int {
    if w - r >= 0 then w - r else BUFFER_SIZE + (w - r)
  }

  /** The bytes between the cursors. */
  function Unread(c: seq<char>, r: int, w: int): (u: seq<char>)
    requires Ringed(c, r, w)
    ensures |u| == Stock(r, w)
  {
    if w >= r then c[r..w] else c[r..] + c[..w]
  }

  function Put(c: seq<char>, w: int, bytes: seq<char>): (p: (seq<char>, int))
    requires Ringed(c, 0, w)
    ensures Ringed(p.0, 0, p.1)
    decreases bytes
  {
    if bytes == [] then (c, w) else Put(c[w := bytes[0]], Next(w), bytes[1..])
  }

  function Get(c: seq<char>, r: int, n: nat): (p: (seq<char>, int))
    requires Ringed(c, r, 0)
    ensures |p.0| == n && Ringed(c, p.1, 0)
    decreases n
  {
    if n == 0 then ([], r)
    else
      var (bytes, r') := Get(c, Next(r), n - 1);
      ([c[r]] + bytes, r')
  }

  /** What one reader takes off the ring and the rest give back what was there, through the wrap-around. */
  lemma {:induction false} GetTakesFromTheFront(c: seq<char>, r: int, w: int, n: nat)
    requires Ringed(c, r, w) && n <= Stock(r, w)
    ensures var (bytes, r') := Get(c, r, n); Unread(c, r, w) == bytes + Unread(c, r', w)
    decreases n
  {
    hide Get, Unread;
    GetUnfolds(c, r, n);
    if n == 0 {
      assert [] + Unread(c, r, w) == Unread(c, r, w);
    } else {
      HeadOfUnread(c, r, w);
      GetTakesFromTheFront(c, Next(r), w, n - 1);
      var (bytes, r') := Get(c, Next(r), n - 1);
      assert [c[r]] + (bytes + Unread(c, r', w)) == ([c[r]] + bytes) + Unread(c, r', w);
    }
  }

  lemma GetUnfolds(c: seq<char>, r: int, n: nat)
    requires Ringed(c, r, 0)
    ensures n == 0 ==> Get(c, r, n) == ([], r)
    ensures n > 0 ==> Get(c, r, n) == ([c[r]] + Get(c, Next(r), n - 1).0, Get(c, Next(r), n - 1).1)
  {
  }

  lemma HeadOfUnread(c: seq<char>, r: int, w: int)
    requires Ringed(c, r, w) && r != w
    ensures Unread(c, r, w) == [c[r]] + Unread(c, Next(r), w) && Stock(Next(r), w) == Stock(r, w) - 1
  {
  }

  lemma TailOfUnread(c: seq<char>, r: int, w: int, x: char)
    requires Ringed(c, r, w) && Next(w) != r
    ensures Unread(c[w := x], r, Next(w)) == Unread(c, r, w) + [x] && Room(r, Next(w)) == Room(r, w) - 1
  {
  }

  /** A write that leaves room is appended to what is there; one that takes all of it hides everything. */
  lemma {:induction false} PutAppends(c: seq<char>, r: int, w: int, bytes: seq<char>)
    requires Ringed(c, r, w) && |bytes| <= Room(r, w)
    ensures var (c', w') := Put(c, w, bytes);
            && (|bytes| < Room(r, w) ==> Unread(c', r, w') == Unread(c, r, w) + bytes)
            && (|bytes| == Room(r, w) ==> w' == r)
    decreases bytes
  {
    hide Unread, Put;
    PutUnfolds(c, w, bytes);
    if bytes == [] {
      assert Unread(c, r, w) + [] == Unread(c, r, w);
    } else if Next(w) == r {
      assert bytes[1..] == [];
      PutUnfolds(c[w := bytes[0]], Next(w), bytes[1..]);
    } else {
      var c1, w1, rest := c[w := bytes[0]], Next(w), bytes[1..];
      TailOfUnread(c, r, w, bytes[0]);
      PutAppends(c1, r, w1, rest);
      assert (Unread(c, r, w) + [bytes[0]]) + rest == Unread(c, r, w) + bytes;
    }
  }

  lemma PutUnfolds(c: seq<char>, w: int, bytes: seq<char>)
    requires Ringed(c, 0, w)
    ensures bytes == [] ==> Put(c, w, bytes) == (c, w)
    ensures bytes != [] ==> Put(c, w, bytes) == Put(c[w := bytes[0]], Next(w), bytes[1..])
  {
  }

  // ------------------------------------------------------------------ the two sides

  /** opened_buffer_t and the content of the file it is open on. */
  datatype Buffer = Buffer(
    content: seq<char>, readCursor: int, writeCursor: int, hasEOF: bool,
    readerSem: SemState, writerSem: SemState, allowReaders: int, allowWriters: int)

  function Fresh(content: seq<char>): Buffer {
    Buffer(content, 0, 0, false, SemState(0, []), SemState(1, []), 0, 1)
  }

  predicate Fits(b: Buffer) {
    Ringed(b.content, b.readCursor, b.writeCursor)
  }

  function Min(a: int, b: int): int {
    if a > b then b else a
  }

  function SignalReaders(b: Buffer, dead: set<Thread>): (Buffer, Option<Thread>) {
    var (s, t) := Signal(b.readerSem, dead);
    (b.(readerSem := s), t)
  }

  function SignalWriters(b: Buffer, dead: set<Thread>): (Buffer, Option<Thread>) {
    var (s, t) := Signal(b.writerSem, dead);
    (b.(writerSem := s), t)
  }

  /** A reader that finds the flag down raises it and lets a reader in; likewise for writers. */
  function AllowReaders(b: Buffer, dead: set<Thread>): (Buffer, Option<Thread>) {
    if b.allowReaders == 0 then SignalReaders(b.(allowReaders := 1), dead) else (b, None)
  }

  function AllowWriters(b: Buffer, dead: set<Thread>): (Buffer, Option<Thread>) {
    if b.allowWriters == 0 then SignalWriters(b.(allowWriters := 1), dead) else (b, None)
  }

  /** How many bytes a write takes. */
  function Taken(b: Buffer, bytes: seq<char>): int {
    Min(Room(b.readCursor, b.writeCursor), |bytes|)
  }

  /** What writeBuffer does once it is past its semaphore: the ring, and the threads it lets go. */
  function Written(b: Buffer, bytes: seq<char>, dead: set<Thread>): (Buffer, Option<Thread>, Option<Thread>)
    requires Fits(b)
  {
    var n := Taken(b, bytes);
    var (b1, writer) :=
      if n < Room(b.readCursor, b.writeCursor) then SignalWriters(b, dead) else (b.(allowWriters := 0), None);
    var (c, w) := Put(b.content, b.writeCursor, bytes[..n]);
    var (b2, reader) := AllowReaders(b1.(content := c, writeCursor := w), dead);
    (b2, reader, writer)
  }

  /** How many bytes a read gets. */
  function Given(b: Buffer, n: nat): int {
    Min(Stock(b.readCursor, b.writeCursor), n)
  }

  /** What readBuffer does once it is past its semaphore. */
  function Consumed(b: Buffer, n: nat, dead: set<Thread>): (Buffer, seq<char>, Option<Thread>, Option<Thread>)
    requires Fits(b)
  {
    var k := Given(b, n);
    var (b1, reader) :=
      if k < Stock(b.readCursor, b.writeCursor) || b.hasEOF then SignalReaders(b, dead) else (b.(allowReaders := 0), None);
    var (bytes, r) := Get(b.content, b.readCursor, k);
    var (b2, writer) := AllowWriters(b1.(readCursor := r), dead);
    (b2, bytes, reader, writer)
  }

  /** closeFile of the last writer. */
  function Ended(b: Buffer, dead: set<Thread>): (Buffer, Option<Thread>) {
    AllowReaders(b.(hasEOF := true), dead)
  }

  // ------------------------------------------------------------------ the protocol

  /** What a thread asked for when it entered writeBuffer or readBuffer. */
  datatype Request = Write(bytes: seq<char>) | Read(n: nat)

  /**
   A pipe with the threads inside its calls: `pending` maps each of them to its request; those that were
   let go and have not run since are in `grantedReaders` and `grantedWriters`. `lost` counts tokens whose
   holder was killed, `full` the writes that took all the room.
   */
  datatype State = State(
    b: Buffer,
    pending: map<Thread, Request>,
    grantedReaders: set<Thread>, grantedWriters: set<Thread>,
    dead: set<Thread>, lostReaders: nat, lostWriters: nat,
    accepted: seq<char>, returned: seq<char>, full: nat)

  datatype Event =
    | Enter(t: Thread, req: Request)  // up to the semaphore, and through if it lets the thread pass
    | Resume(t: Thread)               // a thread that was let go runs on
    | LastWriterCloses
    | WriterOpens
    | Kill(t: Thread)

  function Woken(s: State, b: Buffer, reader: Option<Thread>, writer: Option<Thread>): State {
    s.(b := b, grantedReaders := s.grantedReaders + Just(reader), grantedWriters := s.grantedWriters + Just(writer))
  }

  function DoWrite(s: State, bytes: seq<char>): State
    requires Fits(s.b)
  {
    var n := Taken(s.b, bytes);
    var (b, reader, writer) := Written(s.b, bytes, s.dead);
    Woken(s, b, reader, writer).(accepted := s.accepted + bytes[..n],
                                 full := s.full + if n == Room(s.b.readCursor, s.b.writeCursor) then 1 else 0)
  }

  function DoRead(s: State, n: nat): State
    requires Fits(s.b)
  {
    var (b, bytes, reader, writer) := Consumed(s.b, n, s.dead);
    Woken(s, b, reader, writer).(returned := s.returned + bytes)
  }

  function Do(s: State, req: Request): State
    requires Fits(s.b)
  {
    match req
    case Write(bytes) => DoWrite(s, bytes)
    case Read(n) => DoRead(s, n)
  }

  function Waits(b: Buffer, t: Thread, req: Request): (Buffer, bool) {
    match req
    case Write(_) => var (q, got) := Wait(b.writerSem, t); (b.(writerSem := q), got)
    case Read(_) => var (q, got) := Wait(b.readerSem, t); (b.(readerSem := q), got)
  }

  predicate CanStep(s: State, e: Event) {
    && Fits(s.b)
    && match e
       case Enter(t, req) =>
         && t !in s.pending && t !in s.dead
         && (match req case Write(bytes) => bytes != [] case Read(n) => n != 0)
       case Resume(t) => t in s.pending && (t in s.grantedReaders || t in s.grantedWriters)
       case _ => true
  }

  function Step(s: State, e: Event): State
    requires CanStep(s, e)
  {
    match e
    case Enter(t, req) =>
      var (b, got) := Waits(s.b, t, req);
      if got then Do(s.(b := b), req) else s.(b := b, pending := s.pending[t := req])
    case Resume(t) =>
      Do(s.(pending := s.pending - {t}, grantedReaders := s.grantedReaders - {t},
            grantedWriters := s.grantedWriters - {t}), s.pending[t])
    case LastWriterCloses => var (b, reader) := Ended(s.b, s.dead); Woken(s, b, reader, None)
    case WriterOpens => s.(b := s.b.(hasEOF := false))
    case Kill(t) =>
      if t in s.grantedReaders then
        s.(grantedReaders := s.grantedReaders - {t}, pending := s.pending - {t}, dead := s.dead + {t},
           lostReaders := s.lostReaders + 1)
      else if t in s.grantedWriters then
        s.(grantedWriters := s.grantedWriters - {t}, pending := s.pending - {t}, dead := s.dead + {t},
           lostWriters := s.lostWriters + 1)
      else s.(dead := s.dead + {t})
  }

  /** A token is in the semaphore, in the hands of a thread that was let go, or lost with one. */
  ghost predicate Tokens(s: State) {
    && Orderly(s.b.readerSem) && Orderly(s.b.writerSem)
    && s.b.readerSem.value + |s.grantedReaders| + s.lostReaders == s.b.allowReaders
    && s.b.writerSem.value + |s.grantedWriters| + s.lostWriters == s.b.allowWriters
    && 0 <= s.b.allowReaders <= 1 && 0 <= s.b.allowWriters <= 1
  }

  /** One side is always allowed, and a lowered reader flag means that there is nothing to read. */
  ghost predicate Flags(b: Buffer) {
    && (b.allowReaders != 0 || b.allowWriters != 0)
    && (b.allowReaders == 0 ==> b.readCursor == b.writeCursor && !b.hasEOF)
    && (b.allowWriters == 0 ==> b.readCursor == b.writeCursor)
  }

  /** Each thread inside a call is in one place, on the side of its request. */
  ghost predicate Inside(s: State) {
    && NoDuplicates(s.b.readerSem.queue) && NoDuplicates(s.b.writerSem.queue)
    && (forall t :: t in s.b.readerSem.queue || t in s.grantedReaders ==> t in s.pending && s.pending[t].Read?)
    && (forall t :: t in s.b.writerSem.queue || t in s.grantedWriters ==> t in s.pending && s.pending[t].Write?)
    && (forall t :: t in s.grantedReaders ==> t !in s.b.readerSem.queue)
    && (forall t :: t in s.grantedWriters ==> t !in s.b.writerSem.queue)
    && (forall t :: t in s.pending && s.pending[t].Write? ==> s.pending[t].bytes != [])
  }

  /** What was accepted was returned, is unread, or was hidden by a write that took all the room. */
  ghost predicate Stream(s: State) {
    && Fits(s.b)
    && var unread := Unread(s.b.content, s.b.readCursor, s.b.writeCursor);
       && |s.accepted| == |s.returned| + |unread| + BUFFER_SIZE * s.full
       && (s.full == 0 ==> s.accepted == s.returned + unread)
  }

  ghost predicate Inv(s: State) {
    Tokens(s) && Flags(s.b) && Inside(s) && Stream(s)
  }

  lemma SignalFacts(q: SemState, dead: set<Thread>)
    requires Orderly(q) && NoDuplicates(q.queue)
    ensures var (q', t) := Signal(q, dead);
            && Orderly(q') && NoDuplicates(q'.queue)
            && q'.value + |Just(t)| == q.value + 1
            && (forall u :: u in q'.queue ==> u in q.queue && u !in Just(t))
            && (forall u :: u in Just(t) ==> u in q.queue && u !in dead)
  {
    hide Signal, Released;
    SignalIsSpentOnce(q, dead);
    NoDuplicatesParts(Released(q, dead), Signal(q, dead).0.queue);
  }

  /** What holds while a writer that took its token is past the semaphore: no other writer token is out. */
  ghost predicate WriterIn(s: State) {
    && Flags(s.b) && Inside(s) && Stream(s)
    && Orderly(s.b.readerSem) && Orderly(s.b.writerSem)
    && s.b.readerSem.value + |s.grantedReaders| + s.lostReaders == s.b.allowReaders <= 1
    && s.b.allowWriters == 1 && s.b.writerSem.value == 0 && s.grantedWriters == {} && s.lostWriters == 0
  }

  ghost predicate ReaderIn(s: State) {
    && Flags(s.b) && Inside(s) && Stream(s)
    && Orderly(s.b.readerSem) && Orderly(s.b.writerSem)
    && s.b.writerSem.value + |s.grantedWriters| + s.lostWriters == s.b.allowWriters <= 1
    && s.b.allowReaders == 1 && s.b.readerSem.value == 0 && s.grantedReaders == {} && s.lostReaders == 0
  }

  lemma WriteKeepsStream(s: State, bytes: seq<char>)
    requires Stream(s) && bytes != []
    ensures Stream(DoWrite(s, bytes))
    ensures Taken(s.b, bytes) <= |bytes| && Taken(s.b, bytes) > 0
  {
    hide Unread, Put, Signal;
    var n := Taken(s.b, bytes);
    PutAppends(s.b.content, s.b.readCursor, s.b.writeCursor, bytes[..n]);
    var u := Unread(s.b.content, s.b.readCursor, s.b.writeCursor);
    assert s.returned + (u + bytes[..n]) == (s.returned + u) + bytes[..n];
  }

  lemma ReadKeepsStream(s: State, n: nat)
    requires Stream(s)
    ensures Stream(DoRead(s, n))
  {
    hide Unread, Get, Signal;
    var k := Given(s.b, n);
    GetTakesFromTheFront(s.b.content, s.b.readCursor, s.b.writeCursor, k);
    var (bytes, r) := Get(s.b.content, s.b.readCursor, k);
    assert s.returned + (bytes + Unread(s.b.content, r, s.b.writeCursor))
        == (s.returned + bytes) + Unread(s.b.content, r, s.b.writeCursor);
  }

  /** A full write leaves the cursors equal, and so does a read that takes everything. */
  lemma CursorsMeet(b: Buffer, bytes: seq<char>, n: nat)
    requires Fits(b)
    ensures Taken(b, bytes) == Room(b.readCursor, b.writeCursor) ==>
              Put(b.content, b.writeCursor, bytes[..Taken(b, bytes)]).1 == b.readCursor
    ensures Given(b, n) == Stock(b.readCursor, b.writeCursor) ==>
              Get(b.content, b.readCursor, Given(b, n)).1 == b.writeCursor
  {
    hide Put, Get, Unread;
    var k := Taken(b, bytes);
    PutAppends(b.content, b.readCursor, b.writeCursor, bytes[..k]);
    GetTakesFromTheFront(b.content, b.readCursor, b.writeCursor, Given(b, n));
  }

  lemma NobodyLetGo(g: set<Thread>)
    ensures g + Just(None) == g
    ensures forall t: Option<Thread> :: {} + Just(t) == Just(t)
    ensures |g| == 0 ==> g == {}
  {
  }

  lemma WriteKeeps(s: State, bytes: seq<char>)
    requires WriterIn(s) && bytes != []
    ensures Inv(DoWrite(s, bytes))
  {
    hide Tokens, Flags, Inside, Stream, DoWrite, Orderly;
    WriteKeepsStream(s, bytes);
    StreamFits(s);
    WriteKeepsInside(s, bytes);
    WriteKeepsTokens(s, bytes);
  }

  /** A reader, or a writer, is let go: it moves from the queue to those that were granted their token. */
  lemma ReaderLetGo(s: State)
    requires Inside(s) && Orderly(s.b.readerSem)
    ensures var (q, t) := Signal(s.b.readerSem, s.dead);
            Inside(s.(b := s.b.(readerSem := q), grantedReaders := s.grantedReaders + Just(t)))
  {
    hide NoDuplicates, Signal, Orderly;
    SignalFacts(s.b.readerSem, s.dead);
  }

  lemma WriterLetGo(s: State)
    requires Inside(s) && Orderly(s.b.writerSem)
    ensures var (q, t) := Signal(s.b.writerSem, s.dead);
            Inside(s.(b := s.b.(writerSem := q), grantedWriters := s.grantedWriters + Just(t)))
  {
    hide NoDuplicates, Signal, Orderly;
    SignalFacts(s.b.writerSem, s.dead);
  }

  /** Only the queues, the requests and those let go matter to who is inside. */
  lemma InsideSame(s: State, s': State)
    requires Inside(s) && s'.pending == s.pending
    requires s'.b.readerSem == s.b.readerSem && s'.b.writerSem == s.b.writerSem
    requires s'.grantedReaders == s.grantedReaders && s'.grantedWriters == s.grantedWriters
    ensures Inside(s')
  {
    hide NoDuplicates;
  }

  lemma WriteKeepsInside(s: State, bytes: seq<char>)
    requires Inside(s) && Orderly(s.b.readerSem) && Orderly(s.b.writerSem) && Fits(s.b)
    ensures Inside(DoWrite(s, bytes))
  {
    hide Put, Signal, Room, Orderly, Inside, Fits;
    var s1 := s;
    if Taken(s.b, bytes) < Room(s.b.readCursor, s.b.writeCursor) {
      WriterLetGo(s);
      var (q, t) := Signal(s.b.writerSem, s.dead);
      s1 := s.(b := s.b.(writerSem := q), grantedWriters := s.grantedWriters + Just(t));
    }
    var s2 := s1;
    if s.b.allowReaders == 0 {
      ReaderLetGo(s1);
      var (q, t) := Signal(s1.b.readerSem, s1.dead);
      s2 := s1.(b := s1.b.(readerSem := q), grantedReaders := s1.grantedReaders + Just(t));
    }
    NobodyLetGo(s.grantedReaders);
    NobodyLetGo(s.grantedWriters);
    InsideSame(s2, DoWrite(s, bytes));
  }

  lemma WriteKeepsTokens(s: State, bytes: seq<char>)
    requires WriterIn(s) && Fits(s.b)
    ensures Tokens(DoWrite(s, bytes)) && Flags(DoWrite(s, bytes).b)
  {
    hide Unread, Put, Signal, Stream, NoDuplicates, Room, Stock;
    CursorsMeet(s.b, bytes, 0);
    SignalFacts(s.b.readerSem, s.dead);
    SignalFacts(s.b.writerSem, s.dead);
    NobodyLetGo(s.grantedReaders);
    NobodyLetGo(s.grantedWriters);
  }

  lemma StreamFits(s: State)
    requires Stream(s)
    ensures Fits(s.b)
  {
  }

  lemma ReadKeeps(s: State, n: nat)
    requires ReaderIn(s)
    ensures Inv(DoRead(s, n))
  {
    hide Tokens, Flags, Inside, Stream, DoRead, Orderly;
    ReadKeepsStream(s, n);
    StreamFits(s);
    ReadKeepsInside(s, n);
    ReadKeepsTokens(s, n);
  }

  lemma ReadKeepsInside(s: State, n: nat)
    requires Inside(s) && Orderly(s.b.readerSem) && Orderly(s.b.writerSem) && Fits(s.b)
    ensures Inside(DoRead(s, n))
  {
    hide Get, Signal, Stock, Orderly, Inside, Fits;
    var s1 := s;
    if Given(s.b, n) < Stock(s.b.readCursor, s.b.writeCursor) || s.b.hasEOF {
      ReaderLetGo(s);
      var (q, t) := Signal(s.b.readerSem, s.dead);
      s1 := s.(b := s.b.(readerSem := q), grantedReaders := s.grantedReaders + Just(t));
    }
    var s2 := s1;
    if s.b.allowWriters == 0 {
      WriterLetGo(s1);
      var (q, t) := Signal(s1.b.writerSem, s1.dead);
      s2 := s1.(b := s1.b.(writerSem := q), grantedWriters := s1.grantedWriters + Just(t));
    }
    NobodyLetGo(s.grantedReaders);
    NobodyLetGo(s.grantedWriters);
    InsideSame(s2, DoRead(s, n));
  }

  lemma ReadKeepsTokens(s: State, n: nat)
    requires ReaderIn(s) && Fits(s.b)
    ensures Tokens(DoRead(s, n)) && Flags(DoRead(s, n).b)
  {
    hide Unread, Get, Signal, Stream, NoDuplicates, Room, Stock;
    CursorsMeet(s.b, [], n);
    SignalFacts(s.b.readerSem, s.dead);
    SignalFacts(s.b.writerSem, s.dead);
    NobodyLetGo(s.grantedReaders);
    NobodyLetGo(s.grantedWriters);
  }

  /** A step that leaves the ring and the byte counts alone. */
  lemma StreamSame(s: State, s': State)
    requires Stream(s) && s'.accepted == s.accepted && s'.returned == s.returned && s'.full == s.full
    requires && s'.b.content == s.b.content && s'.b.readCursor == s.b.readCursor
             && s'.b.writeCursor == s.b.writeCursor
    ensures Stream(s')
  {
    hide Unread, Stock;
  }

  /** The semaphore lets the thread through: it has the one token of its side in hand. */
  lemma WriterEnters(s: State)
    requires Inv(s) && s.b.writerSem.value > 0
    ensures WriterIn(s.(b := s.b.(writerSem := s.b.writerSem.(value := s.b.writerSem.value - 1))))
  {
    hide Unread, NoDuplicates, Stream;
    StreamSame(s, s.(b := s.b.(writerSem := s.b.writerSem.(value := s.b.writerSem.value - 1))));
    NobodyLetGo(s.grantedWriters);
  }

  lemma ReaderEnters(s: State)
    requires Inv(s) && s.b.readerSem.value > 0
    ensures ReaderIn(s.(b := s.b.(readerSem := s.b.readerSem.(value := s.b.readerSem.value - 1))))
  {
    hide Unread, NoDuplicates, Stream;
    StreamSame(s, s.(b := s.b.(readerSem := s.b.readerSem.(value := s.b.readerSem.value - 1))));
    NobodyLetGo(s.grantedReaders);
  }

  /** The thread waits. */
  lemma EnterBlocks(s: State, t: Thread, req: Request)
    requires Inv(s) && CanStep(s, Enter(t, req)) && !Waits(s.b, t, req).1
    ensures Inv(s.(b := Waits(s.b, t, req).0, pending := s.pending[t := req]))
  {
    hide Unread, Stream, Flags;
    StreamSame(s, s.(b := Waits(s.b, t, req).0, pending := s.pending[t := req]));
    assert t !in s.b.readerSem.queue && t !in s.b.writerSem.queue;
    NoDuplicatesEnds(s.b.readerSem.queue, t);
    NoDuplicatesEnds(s.b.writerSem.queue, t);
    SameFlags(s.b, Waits(s.b, t, req).0);
  }

  lemma SameFlags(b: Buffer, b': Buffer)
    requires Flags(b) && b' == b.(readerSem := b'.readerSem, writerSem := b'.writerSem)
    ensures Flags(b')
  {
  }

  lemma EnterKeeps(s: State, t: Thread, req: Request)
    requires Inv(s) && CanStep(s, Enter(t, req))
    ensures Inv(Step(s, Enter(t, req)))
  {
    hide Tokens, Flags, Inside, Stream, DoWrite, DoRead, WriterIn, ReaderIn;
    InvFacts(s);
    var (b, got) := Waits(s.b, t, req);
    if !got {
      EnterBlocks(s, t, req);
    } else {
      match req
      case Write(bytes) => WriterEnters(s); WriteKeeps(s.(b := b), bytes);
      case Read(n) => ReaderEnters(s); ReadKeeps(s.(b := b), n);
    }
  }

  lemma InvFacts(s: State)
    requires Inv(s)
    ensures Fits(s.b) && s.b.readerSem.value >= 0 && s.b.writerSem.value >= 0
  {
    hide Unread;
  }

  lemma OneHolder(g: set<Thread>, t: Thread)
    requires t in g && |g| <= 1
    ensures g == {t} && g - {t} == {} && |g| == 1
  {
    var rest := g - {t};
    assert |rest| == |g| - 1;
    assert g == rest + {t};
  }

  lemma HolderLeaves(g: set<Thread>, t: Thread)
    ensures t in g ==> |g - {t}| == |g| - 1
    ensures t !in g ==> g - {t} == g
  {
  }

  /** The thread that resumes has the one token of its side in hand. */
  lemma WriterResumes(s: State, t: Thread)
    requires Inv(s) && t in s.grantedWriters
    ensures t in s.pending && s.pending[t].Write? && s.pending[t].bytes != []
    ensures t !in s.grantedReaders && s.grantedWriters - {t} == {}
    ensures WriterIn(s.(pending := s.pending - {t}, grantedWriters := {}))
  {
    hide Unread, NoDuplicates, Stream;
    OneHolder(s.grantedWriters, t);
    StreamSame(s, s.(pending := s.pending - {t}, grantedWriters := {}));
  }

  lemma ReaderResumes(s: State, t: Thread)
    requires Inv(s) && t in s.grantedReaders
    ensures t in s.pending && s.pending[t].Read?
    ensures t !in s.grantedWriters && s.grantedReaders - {t} == {}
    ensures ReaderIn(s.(pending := s.pending - {t}, grantedReaders := {}))
  {
    hide Unread, NoDuplicates, Stream;
    OneHolder(s.grantedReaders, t);
    StreamSame(s, s.(pending := s.pending - {t}, grantedReaders := {}));
  }

  lemma ResumeKeeps(s: State, t: Thread)
    requires Inv(s) && CanStep(s, Resume(t))
    ensures Inv(Step(s, Resume(t)))
  {
    hide Inv, DoWrite, DoRead;
    HolderLeaves(s.grantedReaders, t);
    HolderLeaves(s.grantedWriters, t);
    if t in s.grantedWriters {
      WriterResumes(s, t);
      WriteKeeps(s.(pending := s.pending - {t}, grantedWriters := {}), s.pending[t].bytes);
    } else {
      ReaderResumes(s, t);
      ReadKeeps(s.(pending := s.pending - {t}, grantedReaders := {}), s.pending[t].n);
    }
  }

  lemma KillKeepsInside(s: State, t: Thread)
    requires Inside(s) && Fits(s.b)
    ensures Inside(Step(s, Kill(t)))
  {
    hide NoDuplicates, Fits;
  }

  lemma KillKeeps(s: State, t: Thread)
    requires Inv(s)
    ensures Fits(s.b) && Inv(Step(s, Kill(t)))
  {
    hide Unread, Stream, Flags, Orderly, Fits, Inside;
    StreamFits(s);
    StreamSame(s, Step(s, Kill(t)));
    KillKeepsInside(s, t);
    HolderLeaves(s.grantedReaders, t);
    HolderLeaves(s.grantedWriters, t);
  }

  lemma OpenKeeps(s: State)
    requires Inv(s)
    ensures Fits(s.b) && Inv(Step(s, WriterOpens))
  {
    hide Unread, NoDuplicates, Stream, Orderly;
    StreamFits(s);
    StreamSame(s, Step(s, WriterOpens));
  }

  lemma CloseKeepsInside(s: State)
    requires Inside(s) && Orderly(s.b.readerSem) && Fits(s.b)
    ensures Inside(Step(s, LastWriterCloses))
  {
    hide Signal, Orderly, Fits, Inside;
    NobodyLetGo(s.grantedReaders);
    NobodyLetGo(s.grantedWriters);
    if s.b.allowReaders == 0 {
      ReaderLetGo(s);
      var (q, t) := Signal(s.b.readerSem, s.dead);
      InsideSame(s.(b := s.b.(readerSem := q), grantedReaders := s.grantedReaders + Just(t)), Step(s, LastWriterCloses));
    } else {
      InsideSame(s, Step(s, LastWriterCloses));
    }
  }

  lemma CloseKeeps(s: State)
    requires Inv(s)
    ensures Fits(s.b) && Inv(Step(s, LastWriterCloses))
  {
    hide Unread, NoDuplicates, Stream, Signal;
    StreamFits(s);
    StreamSame(s, Step(s, LastWriterCloses));
    CloseKeepsInside(s);
    SignalFacts(s.b.readerSem, s.dead);
    NobodyLetGo(s.grantedReaders);
    NobodyLetGo(s.grantedWriters);
  }

  lemma StepKeeps(s: State, e: Event)
    requires Inv(s) && CanStep(s, e)
    ensures Inv(Step(s, e))
  {
    hide Inv, Step, CanStep;
    match e
    case Enter(t, req) => EnterKeeps(s, t, req);
    case Resume(t) => ResumeKeeps(s, t);
    case Kill(t) => KillKeeps(s, t);
    case LastWriterCloses => CloseKeeps(s);
    case WriterOpens => OpenKeeps(s);
  }

  // ------------------------------------------------------------------ every run

  /** openBuffer on a file of the right size; nobody has called yet. */
  ghost predicate Opened(s: State) {
    && |s.b.content| == BUFFER_SIZE && s.b == Fresh(s.b.content)
    && s.pending == map[] && s.grantedReaders == {} && s.grantedWriters == {}
    && s.lostReaders == s.lostWriters == s.full == 0 && s.accepted == s.returned == []
  }

  ghost predicate Runs(s: State, es: seq<Event>, t: State)
    decreases es
  {
    if es == [] then t == s else CanStep(s, es[0]) && Runs(Step(s, es[0]), es[1..], t)
  }

  lemma OpenedIsFine(s: State)
    requires Opened(s)
    ensures Inv(s)
  {
    assert Unread(s.b.content, 0, 0) == [];
  }

  lemma {:induction false} RunsKeep(s: State, es: seq<Event>, t: State)
    requires Inv(s) && Runs(s, es, t)
    ensures Inv(t)
    decreases es
  {
    hide Inv, Step, CanStep;
    if es != [] {
      StepKeeps(s, es[0]);
      RunsKeep(Step(s, es[0]), es[1..], t);
    }
  }

  /**
   The token protocol, on every run, full and ended pipes and killed threads included: each side has one
   token exactly while its flag is up, one of the flags is always up, and a lowered reader flag means
   that there is nothing to read and that the end was not announced.
   */
  lemma TokensMatchTheFlags(s: State, es: seq<Event>, t: State)
    requires Opened(s) && Runs(s, es, t)
    ensures t.b.readerSem.value + |t.grantedReaders| + t.lostReaders == t.b.allowReaders
    ensures t.b.writerSem.value + |t.grantedWriters| + t.lostWriters == t.b.allowWriters
    ensures t.b.allowReaders == 1 || t.b.allowWriters == 1
    ensures t.b.allowReaders == 0 ==> t.b.readCursor == t.b.writeCursor && !t.b.hasEOF
  {
    hide Runs, Stream, Inside;
    OpenedIsFine(s);
    RunsKeep(s, es, t);
  }

  /**
   No wake-up is lost: if a reader waits although there is something to read or the end was announced,
   then some reader was let go and not killed since, or the token went with a killed one. A waiting writer
   is let go likewise, or else a write has filled the ring and a reader comes first.
   */
  lemma NoWakeUpIsLost(s: State, es: seq<Event>, t: State)
    requires Opened(s) && Runs(s, es, t)
    ensures t.b.readerSem.queue != [] && (t.b.readCursor != t.b.writeCursor || t.b.hasEOF) ==>
              t.grantedReaders != {} || t.lostReaders > 0
    ensures t.b.writerSem.queue != [] ==>
              || t.grantedWriters != {} || t.lostWriters > 0
              || (t.b.allowWriters == 0 && t.b.allowReaders == 1)
  {
    hide Runs, Stream, Inside;
    OpenedIsFine(s);
    RunsKeep(s, es, t);
    if t.grantedReaders == {} { assert |t.grantedReaders| == 0; }
    if t.grantedWriters == {} { assert |t.grantedWriters| == 0; }
  }

  /**
   First in, first out: what the reads returned and what is still unread is what the writes accepted,
   exactly if no write took all the room; each write that did hides one whole ring of bytes.
   */
  lemma PipeIsFifoIff(s: State, es: seq<Event>, t: State)
    requires Opened(s) && Runs(s, es, t)
    ensures Fits(t.b)
    ensures var unread := Unread(t.b.content, t.b.readCursor, t.b.writeCursor);
            && (t.returned + unread == t.accepted <==> t.full == 0)
            && |t.accepted| == |t.returned| + |unread| + BUFFER_SIZE * t.full
  {
    hide Runs, Tokens, Inside, Flags, Unread;
    OpenedIsFine(s);
    RunsKeep(s, es, t);
  }

  /** On a pipe that was just opened: a write of a whole ring is accepted, and a read then returns nothing. */
  lemma FullWriteIsHidden(s: State, t: Thread, u: Thread, bytes: seq<char>) returns (r: State)
    requires Opened(s) && |bytes| == BUFFER_SIZE && t !in s.dead && u !in s.dead && t != u
    ensures Runs(s, [Enter(t, Write(bytes)), Enter(u, Read(1))], r)
    ensures r.accepted == bytes && r.returned == [] && r.full == 1 && r.b.readCursor == r.b.writeCursor
    ensures Fits(r.b) && Unread(r.b.content, r.b.readCursor, r.b.writeCursor) == []
  {
    hide Runs, Unread, Put, Signal, Step, CanStep;
    var w := WholeRingIsWritten(s, t, bytes);
    r := NothingIsRead(w, u);
    OneEvent(w, Enter(u, Read(1)), [], r);
    assert [Enter(u, Read(1))] + [] == [Enter(u, Read(1))];
    OneEvent(s, Enter(t, Write(bytes)), [Enter(u, Read(1))], r);
    assert [Enter(t, Write(bytes))] + [Enter(u, Read(1))] == [Enter(t, Write(bytes)), Enter(u, Read(1))];
  }

  lemma OneEvent(s: State, e: Event, es: seq<Event>, t: State)
    requires CanStep(s, e) && (if es == [] then t == Step(s, e) else Runs(Step(s, e), es, t))
    ensures Runs(s, [e] + es, t)
  {
    hide Step, CanStep;
    assert ([e] + es)[1..] == es;
  }

  lemma WholeRingIsWritten(s: State, t: Thread, bytes: seq<char>) returns (w: State)
    requires Opened(s) && |bytes| == BUFFER_SIZE && t !in s.dead
    ensures CanStep(s, Enter(t, Write(bytes))) && w == Step(s, Enter(t, Write(bytes)))
    ensures Fits(w.b) && w.b.readCursor == w.b.writeCursor == 0 && !w.b.hasEOF && w.dead == s.dead && w.pending == map[]
    ensures w.b.readerSem == SemState(1, []) && w.b.writerSem == SemState(0, []) && w.b.allowWriters == 0
    ensures w.accepted == bytes && w.returned == [] && w.full == 1
  {
    hide Put, Unread;
    var c := s.b.content;
    assert bytes[..BUFFER_SIZE] == bytes && [] + bytes == bytes;
    PutAppends(c, 0, 0, bytes);
    NobodyToSignal(s.dead);
    w := Step(s, Enter(t, Write(bytes)));
  }

  lemma NothingIsRead(w: State, u: Thread) returns (r: State)
    requires Fits(w.b) && w.b.readCursor == w.b.writeCursor == 0 && !w.b.hasEOF && u !in w.dead && w.pending == map[]
    requires w.b.readerSem == SemState(1, []) && w.b.writerSem == SemState(0, []) && w.b.allowWriters == 0
    ensures CanStep(w, Enter(u, Read(1))) && r == Step(w, Enter(u, Read(1)))
    ensures r.accepted == w.accepted && r.returned == w.returned && r.full == w.full
    ensures Fits(r.b) && r.b.readCursor == r.b.writeCursor == 0
    ensures Unread(r.b.content, r.b.readCursor, r.b.writeCursor) == []
  {
    NobodyToSignal(w.dead);
    GetUnfolds(w.b.content, 0, 0);
    r := Step(w, Enter(u, Read(1)));
    assert w.returned + [] == w.returned;
  }

  lemma NobodyToSignal(dead: set<Thread>)
    ensures forall v :: Signal(SemState(v, []), dead) == (SemState(v + 1, []), None)
  {
  }

  // ------------------------------------------------------------------ what one call moves

  function UnreadOf(b: Buffer): seq<char>
    requires Fits(b)
  {
    Unread(b.content, b.readCursor, b.writeCursor)
  }

  /**
   A read of n bytes takes the first n of those that are unread, or all of them if there are fewer, and
   no others. Readers are let in further exactly if bytes are left or the end was announced, by a signal;
   writers that were shut out are let in again, by a signal.
   */
  lemma ReadGives(b: Buffer, n: nat, dead: set<Thread>)
    requires Fits(b)
    ensures var u := UnreadOf(b);
            var k := if n <= |u| then n else |u|;
            var more, shut := k < |u| || b.hasEOF, b.allowWriters == 0;
            var (b', bytes, reader, writer) := Consumed(b, n, dead);
            && bytes == u[..k] && Fits(b') && UnreadOf(b') == u[k..] && b'.hasEOF == b.hasEOF
            && b'.allowReaders == (if more then b.allowReaders else 0)
            && (b'.readerSem, reader) == (if more then Signal(b.readerSem, dead) else (b.readerSem, None))
            && b'.allowWriters == (if shut then 1 else b.allowWriters)
            && (b'.writerSem, writer) == (if shut then Signal(b.writerSem, dead) else (b.writerSem, None))
  {
    hide Unread, Get, Signal;
    GetTakesFromTheFront(b.content, b.readCursor, b.writeCursor, Given(b, n));
  }

  /**
   A write takes the bytes that there is room for beside those that are unread, the first ones, and
   appends them; taking all the room, it hides whatever is in the ring. Writers are let in further exactly
   if room is left, readers that were shut out are let in again.
   */
  lemma WriteTakes(b: Buffer, bytes: seq<char>, dead: set<Thread>)
    requires Fits(b)
    ensures var u := UnreadOf(b);
            var room := BUFFER_SIZE - |u|;
            var k := if |bytes| <= room then |bytes| else room;
            var more, shut := k < room, b.allowReaders == 0;
            var (b', reader, writer) := Written(b, bytes, dead);
            && 0 <= k == Taken(b, bytes) && Fits(b') && b'.hasEOF == b.hasEOF
            && UnreadOf(b') == (if more then u + bytes[..k] else [])
            && b'.allowWriters == (if more then b.allowWriters else 0)
            && (b'.writerSem, writer) == (if more then Signal(b.writerSem, dead) else (b.writerSem, None))
            && b'.allowReaders == (if shut then 1 else b.allowReaders)
            && (b'.readerSem, reader) == (if shut then Signal(b.readerSem, dead) else (b.readerSem, None))
  {
    hide Unread, Put, Signal;
    var k := Taken(b, bytes);
    PutAppends(b.content, b.readCursor, b.writeCursor, bytes[..k]);
    if k == Room(b.readCursor, b.writeCursor) { MeetingCursors(Written(b, bytes, dead).0); }
  }

  lemma MeetingCursors(b: Buffer)
    requires Fits(b)
    ensures b.readCursor == b.writeCursor ==> UnreadOf(b) == []
  {
  }

  /** The event lets a thread past its semaphore: a token is there, or was kept for the thread. */
  predicate LetsPass(s: State, e: Event) {
    match e
    case Enter(t, req) => (if req.Read? then s.b.readerSem.value else s.b.writerSem.value) != 0
    case Resume(t) => true
    case _ => false
  }

  /** And this is what the thread asked for. */
  predicate Passes(s: State, e: Event, req: Request) {
    && LetsPass(s, e)
    && match e
       case Enter(t, r) => r == req
       case Resume(t) => t in s.pending && s.pending[t] == req
       case _ => false
  }

  /** On every run a read that is let in returns the oldest unread bytes, as many as it asks for and are there. */
  lemma ReadDelivers(s: State, es: seq<Event>, t: State, e: Event, n: nat)
    requires Opened(s) && Runs(s, es, t) && CanStep(t, e) && Passes(t, e, Read(n))
    ensures var u, t' := UnreadOf(t.b), Step(t, e);
            var k := if n <= |u| then n else |u|;
            && t'.returned == t.returned + u[..k] && t'.accepted == t.accepted && t'.full == t.full
            && Fits(t'.b) && UnreadOf(t'.b) == u[k..]
            && t'.b.allowReaders == (if u[k..] != [] || t.b.hasEOF then 1 else 0) && t'.b.allowWriters == 1
            && t'.dead == t.dead && t'.pending == (if e.Resume? then t.pending - {e.t} else t.pending)
  {
    hide Inv, DoRead, DoWrite, Unread, Consumed, Runs;
    OpenedIsFine(s);
    RunsKeep(s, es, t);
    var s1 := PastReaderSem(t, e, n);
    ReadGives(s1.b, n, s1.dead);
    DoneRead(s1, n);
  }

  lemma DoneRead(s: State, n: nat)
    requires Fits(s.b)
    ensures DoRead(s, n).returned == s.returned + Consumed(s.b, n, s.dead).1
    ensures DoRead(s, n).b == Consumed(s.b, n, s.dead).0
    ensures DoRead(s, n).accepted == s.accepted && DoRead(s, n).full == s.full
    ensures DoRead(s, n).pending == s.pending && DoRead(s, n).dead == s.dead
  {
    hide Consumed;
  }

  /** Where a reader stands that its semaphore has let through. */
  lemma PastReaderSem(s: State, e: Event, n: nat) returns (s1: State)
    requires Inv(s) && CanStep(s, e) && Passes(s, e, Read(n))
    ensures Fits(s1.b) && s1.b.allowReaders == 1 && 0 <= s1.b.allowWriters <= 1 && Step(s, e) == DoRead(s1, n)
    ensures s1.b == s.b.(readerSem := s1.b.readerSem)
    ensures s1.returned == s.returned && s1.accepted == s.accepted && s1.full == s.full
    ensures s1.dead == s.dead && s1.pending == if e.Resume? then s.pending - {e.t} else s.pending
  {
    hide DoRead, DoWrite, Unread, Stream, NoDuplicates;
    StreamFits(s);
    match e
    case Enter(t, req) =>
      ReaderEnters(s);
      s1 := s.(b := s.b.(readerSem := s.b.readerSem.(value := s.b.readerSem.value - 1)));
    case Resume(t) =>
      HolderLeaves(s.grantedWriters, t);
      ReaderResumes(s, t);
      s1 := s.(pending := s.pending - {t}, grantedReaders := s.grantedReaders - {t});
    case _ =>
  }

  /** On every run a write that is let in is accepted as far as there is room, and appended unless it fills the ring. */
  lemma WriteDelivers(s: State, es: seq<Event>, t: State, e: Event, bytes: seq<char>)
    requires Opened(s) && Runs(s, es, t) && CanStep(t, e) && Passes(t, e, Write(bytes))
    ensures var u, t' := UnreadOf(t.b), Step(t, e);
            var room := BUFFER_SIZE - |u|;
            var k := if |bytes| <= room then |bytes| else room;
            && t'.accepted == t.accepted + bytes[..k] && t'.returned == t.returned
            && t'.full == t.full + (if k == room then 1 else 0)
            && Fits(t'.b) && UnreadOf(t'.b) == (if k < room then u + bytes[..k] else [])
            && t'.b.allowWriters == (if k < room then 1 else 0) && t'.b.allowReaders == 1
            && t'.dead == t.dead && t'.pending == (if e.Resume? then t.pending - {e.t} else t.pending)
  {
    hide Inv, DoRead, DoWrite, Unread, Written, Runs;
    OpenedIsFine(s);
    RunsKeep(s, es, t);
    var s1 := PastWriterSem(t, e, bytes);
    WriteTakes(s1.b, bytes, s1.dead);
    DoneWrite(s1, bytes);
  }

  lemma DoneWrite(s: State, bytes: seq<char>)
    requires Fits(s.b)
    ensures var k := Taken(s.b, bytes);
            && 0 <= k <= |bytes|
            && DoWrite(s, bytes).accepted == s.accepted + bytes[..k] && DoWrite(s, bytes).returned == s.returned
            && DoWrite(s, bytes).full == s.full + (if k == BUFFER_SIZE - |UnreadOf(s.b)| then 1 else 0)
            && DoWrite(s, bytes).b == Written(s.b, bytes, s.dead).0
            && DoWrite(s, bytes).pending == s.pending && DoWrite(s, bytes).dead == s.dead
  {
    hide Written;
  }

  lemma PastWriterSem(s: State, e: Event, bytes: seq<char>) returns (s1: State)
    requires Inv(s) && CanStep(s, e) && Passes(s, e, Write(bytes))
    ensures Fits(s1.b) && s1.b.allowWriters == 1 && 0 <= s1.b.allowReaders <= 1 && Step(s, e) == DoWrite(s1, bytes)
    ensures s1.b == s.b.(writerSem := s1.b.writerSem)
    ensures s1.returned == s.returned && s1.accepted == s.accepted && s1.full == s.full
    ensures s1.dead == s.dead && s1.pending == if e.Resume? then s.pending - {e.t} else s.pending
  {
    hide DoRead, DoWrite, Unread, Stream, NoDuplicates;
    StreamFits(s);
    match e
    case Enter(t, req) =>
      WriterEnters(s);
      s1 := s.(b := s.b.(writerSem := s.b.writerSem.(value := s.b.writerSem.value - 1)));
    case Resume(t) =>
      HolderLeaves(s.grantedReaders, t);
      WriterResumes(s, t);
      s1 := s.(pending := s.pending - {t}, grantedWriters := s.grantedWriters - {t});
    case _ =>
  }

  /** Whatever lets no request past its semaphore moves no byte; a caller that is not let in waits at the end. */
  lemma OthersMoveNothing(s: State, e: Event)
    requires CanStep(s, e) && !LetsPass(s, e)
    ensures var s' := Step(s, e);
            && s'.returned == s.returned && s'.accepted == s.accepted && s'.full == s.full
            && Fits(s'.b) && UnreadOf(s'.b) == UnreadOf(s.b)
            && s'.b.hasEOF == (e.LastWriterCloses? || (s.b.hasEOF && !e.WriterOpens?))
    ensures var s' := Step(s, e);
            match e
            case Enter(t, req) =>
              && s'.pending == s.pending[t := req]
              && s'.b.readerSem == (if req.Read? then SemState(0, s.b.readerSem.queue + [t]) else s.b.readerSem)
              && s'.b.writerSem == (if req.Write? then SemState(0, s.b.writerSem.queue + [t]) else s.b.writerSem)
            case Kill(t) =>
              && s'.dead == s.dead + {t} && s'.b == s.b
              && s'.pending == (if t in s.grantedReaders || t in s.grantedWriters then s.pending - {t} else s.pending)
              && s'.grantedReaders == s.grantedReaders - {t}
              && (t !in s.grantedReaders ==> s'.grantedWriters == s.grantedWriters - {t})
            case _ => s'.pending == s.pending && s'.dead == s.dead
  {
    hide Unread, Signal;
  }

  // ------------------------------------------------------------------ opened_buffer_t

  /** One byte of the copying loops. */
  lemma PutStep(c: seq<char>, w: int, bytes: seq<char>, i: nat, n: nat)
    requires Ringed(c, 0, w) && i < n <= |bytes|
    ensures Put(c, w, bytes[i..n]) == Put(c[w := bytes[i]], Next(w), bytes[i + 1..n])
  {
    hide Put;
    PutUnfolds(c, w, bytes[i..n]);
    assert bytes[i..n][1..] == bytes[i + 1..n];
  }

  /** Where the copying loop of a read stands: `before` was copied, n bytes from r on are left. */
  ghost predicate Getting(c: seq<char>, from: int, k: nat, before: seq<char>, r: int, n: nat) {
    && Ringed(c, from, r)
    && Get(c, from, k) == (before + Get(c, r, n).0, Get(c, r, n).1)
  }

  lemma GettingStep(c: seq<char>, from: int, k: nat, before: seq<char>, r: int, n: nat)
    ensures Ringed(c, from, 0) ==> Getting(c, from, k, [], from, k)
    ensures Getting(c, from, k, before, r, n) && n > 0 ==> Getting(c, from, k, before + [c[r]], Next(r), n - 1)
    ensures Getting(c, from, k, before, r, 0) ==> Get(c, from, k) == (before, r)
  {
    hide Get;
    if Ringed(c, from, 0) {
      assert [] + Get(c, from, k).0 == Get(c, from, k).0;
    }
    if Ringed(c, from, r) {
      GetUnfolds(c, r, n);
      GetUnfolds(c, r, 0);
      if n > 0 {
        assert before + ([c[r]] + Get(c, Next(r), n - 1).0) == (before + [c[r]]) + Get(c, Next(r), n - 1).0;
      }
      assert before + [] == before;
    }
  }

  lemma SignalLeavesNobody(s: SemState, dead: set<Thread>)
    requires Orderly(s)
    ensures var (s', t) := Signal(s, dead);
            && (t == None ==> s' == SemState(s.value + 1, []))
            && (t.Some? ==> t.value in s.queue && t.value !in dead)
  {
  }

  class OpenedBuffer {
    const content: array<char>
    var readCursor: int
    var writeCursor: int
    var hasEOF: bool
    var readerSem: SemState
    var writerSem: SemState
    var allowReaders: int
    var allowWriters: int

    ghost function State(): Buffer
      reads this, content
    {
      Buffer(content[..], readCursor, writeCursor, hasEOF, readerSem, writerSem, allowReaders, allowWriters)
    }

    /** openBuffer, on the content of the file. */
    constructor (content: array<char>)
      ensures this.content == content && State() == Fresh(content[..])
    {
      this.content := content;
      readCursor, writeCursor, hasEOF := 0, 0, false;
      readerSem, writerSem := SemState(0, []), SemState(1, []);
      allowReaders, allowWriters := 0, 1;
    }

    /** writeBuffer, from the point where the semaphore let the writer through. */
    method WriteBuffer(bytes: seq<char>, dead: set<Thread>)
      returns (written: int, reader: Option<Thread>, writer: Option<Thread>)
      requires Fits(State()) && bytes != []
      modifies this, content
      ensures written == if |bytes| <= BUFFER_SIZE - |old(UnreadOf(State()))| then |bytes| else BUFFER_SIZE - |old(UnreadOf(State()))|
      ensures Fits(State())
      ensures UnreadOf(State()) == if |old(UnreadOf(State()))| + written < BUFFER_SIZE then old(UnreadOf(State())) + bytes[..written] else []
      ensures (State(), reader, writer) == Written(old(State()), bytes, dead)
    {
      hide Put, Signal, Unread;
      WriteTakes(State(), bytes, dead);
      reader, writer := None, None;
      ghost var was := State();
      var available := readCursor - writeCursor;
      available := if available > 0 then available else BUFFER_SIZE + available;
      written := if available > |bytes| then |bytes| else available;
      if written < available {
        var (s, t) := Signal(writerSem, dead);
        writerSem, writer := s, t;
      } else {
        allowWriters := 0;
      }
      var i := 0;
      while i < written
        invariant 0 <= i <= written <= |bytes| && Ringed(content[..], 0, writeCursor)
        invariant Put(content[..], writeCursor, bytes[i..written]) == Put(was.content, was.writeCursor, bytes[..written])
        modifies this`writeCursor, content
      {
        ghost var c := content[..];
        PutStep(c, writeCursor, bytes, i, written);
        content[writeCursor] := bytes[i];
        assert content[..] == c[writeCursor := bytes[i]];
        writeCursor := writeCursor + 1;
        if writeCursor == BUFFER_SIZE {
          writeCursor := 0;
        }
        i := i + 1;
      }
      PutUnfolds(content[..], writeCursor, bytes[i..written]);
      if allowReaders == 0 {
        allowReaders := 1;
        var (s, t) := Signal(readerSem, dead);
        readerSem, reader := s, t;
      }
    }

    /** readBuffer, from the point where the semaphore let the reader through. */
    method ReadBuffer(buff: array<char>, bytes: nat, dead: set<Thread>)
      returns (read: int, reader: Option<Thread>, writer: Option<Thread>)
      requires Fits(State()) && buff != content && bytes <= buff.Length
      modifies this, buff
      ensures read == if bytes <= |old(UnreadOf(State()))| then bytes else |old(UnreadOf(State()))|
      ensures buff[..read] == old(UnreadOf(State()))[..read]
      ensures Fits(State()) && UnreadOf(State()) == old(UnreadOf(State()))[read..]
      ensures (State(), buff[..read], reader, writer) == Consumed(old(State()), bytes, dead)
      ensures forall j :: read <= j < buff.Length ==> buff[j] == old(buff[j])
    {
      hide Get, Signal, Unread, Getting;
      ReadGives(State(), bytes, dead);
      reader, writer := None, None;
      ghost var was, c := State(), content[..];
      var available := writeCursor - readCursor;
      available := if available >= 0 then available else BUFFER_SIZE + available;
      read := if available > bytes then bytes else available;
      if read < available || hasEOF {
        var (s, t) := Signal(readerSem, dead);
        readerSem, reader := s, t;
      } else {
        allowReaders := 0;
      }
      var i := 0;
      GettingStep(c, readCursor, read, [], readCursor, read);
      assert buff[..0] == [];
      while i < read
        invariant 0 <= i <= read <= bytes && Ringed(content[..], readCursor, 0) && content[..] == c
        invariant Getting(c, was.readCursor, read, buff[..i], readCursor, read - i)
        invariant forall j :: read <= j < buff.Length ==> buff[j] == old(buff[j])
        modifies this`readCursor, buff
      {
        GettingStep(c, was.readCursor, read, buff[..i], readCursor, read - i);
        buff[i] := content[readCursor];
        assert buff[..i + 1] == buff[..i] + [buff[i]];
        readCursor := readCursor + 1;
        if readCursor == BUFFER_SIZE {
          readCursor := 0;
        }
        i := i + 1;
      }
      GettingStep(c, was.readCursor, read, buff[..read], readCursor, 0);
      if allowWriters == 0 {
        allowWriters := 1;
        var (s, t) := Signal(writerSem, dead);
        writerSem, writer := s, t;
      }
    }

    /**
     The part of closeFile that runs when the last writer goes: from then on a reader is allowed in, which
     lets a living one go if readers wait while the flag is down; what is unread stays so.
     */
    method LastWriterGone(dead: set<Thread>) returns (reader: Option<Thread>)
      requires Orderly(readerSem)
      modifies this
      ensures (State(), reader) == Ended(old(State()), dead)
      ensures hasEOF && allowReaders != 0 && allowWriters == old(allowWriters) && writerSem == old(writerSem)
      ensures readCursor == old(readCursor) && writeCursor == old(writeCursor)
      ensures reader.Some? <==> old(allowReaders) == 0 && exists t :: t in old(readerSem).queue && t !in dead
      ensures reader.Some? ==> reader.value in old(readerSem).queue && reader.value !in dead
      ensures old(allowReaders) == 0 && reader == None ==> readerSem == SemState(old(readerSem).value + 1, [])
      ensures old(allowReaders) != 0 ==> readerSem == old(readerSem)
    {
      SignalIsSpentOnce(readerSem, dead);
      SignalLeavesNobody(readerSem, dead);
      reader := None;
      hasEOF := true;
      if allowReaders == 0 {
        allowReaders := 1;
        var (s, t) := Signal(readerSem, dead);
        readerSem, reader := s, t;
      }
    }
  }
}
