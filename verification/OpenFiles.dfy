/**
 Kernel/fileSystem.c, the list of open files: one entry for each open file, with as many readers and
 writers as there are descriptors, next to the tree that the files are in.
 */
module OpenFiles {
  import opened Sequences
  import opened Options
  import opened Threads
  import Namespace
  import Removal

  datatype Mode = WriteOnly | ReadOnly | ReadWrite

  predicate Reads(m: Mode) { m != WriteOnly }

  predicate Writes(m: Mode) { m != ReadOnly }

  /** opened_file_t and fd_t; a descriptor names its entry by the file. */
  datatype Entry = Entry(file: int, readers: int, writers: int)

  datatype Descriptor = Descriptor(file: int, mode: Mode)

  // ------------------------------------------------------------------- the list

  /** The position of the entry of a file, or the length of the list. */
  function Find(es: seq<Entry>, file: int, i: nat): (k: nat)
    requires i <= |es|
    ensures i <= k <= |es|
    ensures forall j :: i <= j < k ==> es[j].file != file
    ensures k < |es| ==> es[k].file == file
    decreases |es| - i
  {
    if i < |es| && es[i].file != file then Find(es, file, i + 1) else i
  }

  function Raised(e: Entry, m: Mode): Entry {
    e.(readers := e.readers + (if Reads(m) then 1 else 0), writers := e.writers + (if Writes(m) then 1 else 0))
  }

  function Lowered(e: Entry, m: Mode): Entry {
    e.(readers := e.readers - (if Reads(m) then 1 else 0), writers := e.writers - (if Writes(m) then 1 else 0))
  }

  /** openFile: the entry of the file is raised; a file without one gets it at the head. */
  function Added(es: seq<Entry>, file: int, m: Mode): seq<Entry> {
    var k := Find(es, file, 0);
    if k < |es| then es[k := Raised(es[k], m)] else [Raised(Entry(file, 0, 0), m)] + es
  }

  /** closeFile: the entry is lowered, and dropped when nobody reads or writes any more. */
  function Dropped(es: seq<Entry>, file: int, m: Mode): seq<Entry> {
    var k := Find(es, file, 0);
    if k == |es| then es
    else
      var e := Lowered(es[k], m);
      if e.readers == 0 && e.writers == 0 then es[..k] + es[k + 1..] else es[k := e]
  }

  // ----------------------------------------------------------------- accounting

  type Table = map<int, Descriptor>

  /** The descriptors that read, or that write, a file. */
  function Readers(fds: Table, file: int): set<int> {
    set d | d in fds && fds[d].file == file && Reads(fds[d].mode)
  }

  function Writers(fds: Table, file: int): set<int> {
    set d | d in fds && fds[d].file == file && Writes(fds[d].mode)
  }

  predicate IsOpen(fds: Table, file: int) {
    exists d :: d in fds && fds[d].file == file
  }

  ghost predicate OneEntryEach(es: seq<Entry>) {
    forall i, j :: 0 <= i < j < |es| ==> es[i].file != es[j].file
  }

  /** The entries are exactly those of the open files, and count their descriptors. */
  ghost predicate Accounted(es: seq<Entry>, fds: Table) {
    && OneEntryEach(es)
    && (forall i :: 0 <= i < |es| ==>
          && es[i].readers == |Readers(fds, es[i].file)| && es[i].writers == |Writers(fds, es[i].file)|
          && IsOpen(fds, es[i].file))
    && (forall d :: d in fds ==> exists i :: 0 <= i < |es| && es[i].file == fds[d].file)
  }

  /** A file is open exactly if somebody reads or writes it. */
  lemma OpenIffCounted(fds: Table, file: int)
    ensures IsOpen(fds, file) <==> |Readers(fds, file)| > 0 || |Writers(fds, file)| > 0
  {
    if d :| d in fds && fds[d].file == file {
      assert d in Readers(fds, file) || d in Writers(fds, file);
    }
    if !IsOpen(fds, file) {
      forall d
        ensures d !in Readers(fds, file) && d !in Writers(fds, file)
      {
        assert !(d in fds && fds[d].file == file);
      }
      assert Readers(fds, file) == {} && Writers(fds, file) == {};
    }
  }

  /** A new descriptor changes the count of its own file only. */
  lemma CountsWithNew(fds: Table, d: int, fd: Descriptor)
    requires d !in fds
    ensures forall f :: |Readers(fds[d := fd], f)| == |Readers(fds, f)| + if f == fd.file && Reads(fd.mode) then 1 else 0
    ensures forall f :: |Writers(fds[d := fd], f)| == |Writers(fds, f)| + if f == fd.file && Writes(fd.mode) then 1 else 0
  {
    hide Readers, Writers;
    forall f
      ensures |Readers(fds[d := fd], f)| == |Readers(fds, f)| + if f == fd.file && Reads(fd.mode) then 1 else 0
      ensures |Writers(fds[d := fd], f)| == |Writers(fds, f)| + if f == fd.file && Writes(fd.mode) then 1 else 0
    {
      ReadersWithNew(fds, d, fd, f);
      WritersWithNew(fds, d, fd, f);
    }
  }

  lemma ReadersWithNew(fds: Table, d: int, fd: Descriptor, f: int)
    requires d !in fds
    ensures |Readers(fds[d := fd], f)| == |Readers(fds, f)| + if f == fd.file && Reads(fd.mode) then 1 else 0
  {
    var was, now := Readers(fds, f), Readers(fds[d := fd], f);
    assert d !in was;
    assert forall e :: e != d ==> (e in now <==> e in was);
    if f == fd.file && Reads(fd.mode) {
      assert now == was + {d};
    } else {
      assert now == was;
    }
  }

  lemma WritersWithNew(fds: Table, d: int, fd: Descriptor, f: int)
    requires d !in fds
    ensures |Writers(fds[d := fd], f)| == |Writers(fds, f)| + if f == fd.file && Writes(fd.mode) then 1 else 0
  {
    var was, now := Writers(fds, f), Writers(fds[d := fd], f);
    assert d !in was;
    assert forall e :: e != d ==> (e in now <==> e in was);
    if f == fd.file && Writes(fd.mode) {
      assert now == was + {d};
    } else {
      assert now == was;
    }
  }

  lemma CountsWithout(fds: Table, d: int)
    requires d in fds
    ensures forall f ::
              |Readers(fds - {d}, f)| == |Readers(fds, f)| - if f == fds[d].file && Reads(fds[d].mode) then 1 else 0
    ensures forall f ::
              |Writers(fds - {d}, f)| == |Writers(fds, f)| - if f == fds[d].file && Writes(fds[d].mode) then 1 else 0
  {
    var g := fds - {d};
    assert g[d := fds[d]] == fds;
    CountsWithNew(g, d, fds[d]);
  }

  lemma AddKeeps(es: seq<Entry>, fds: Table, d: int, fd: Descriptor)
    requires Accounted(es, fds) && d !in fds
    ensures Accounted(Added(es, fd.file, fd.mode), fds[d := fd])
  {
    hide Readers, Writers;
    CountsWithNew(fds, d, fd);
    var es', fds' := Added(es, fd.file, fd.mode), fds[d := fd];
    var k := Find(es, fd.file, 0);
    OpenIffCounted(fds, fd.file);
    assert fds'[d] == fd;
    forall i | 0 <= i < |es'|
      ensures IsOpen(fds', es'[i].file)
    {
      OpenIffCounted(fds, es'[i].file);
      OpenIffCounted(fds', es'[i].file);
    }
    forall e | e in fds'
      ensures exists i :: 0 <= i < |es'| && es'[i].file == fds'[e].file
    {
      if e != d && fds'[e].file != fd.file {
        var i :| 0 <= i < |es| && es[i].file == fds[e].file;
        assert es'[if k < |es| then i else i + 1].file == fds'[e].file;
      } else {
        assert es'[if k < |es| then k else 0].file == fd.file;
      }
    }
    if k == |es| {
      assert !IsOpen(fds, fd.file);
    }
  }

  lemma DropKeeps(es: seq<Entry>, fds: Table, d: int)
    requires Accounted(es, fds) && d in fds
    ensures Accounted(Dropped(es, fds[d].file, fds[d].mode), fds - {d})
  {
    hide Readers, Writers;
    CountsWithout(fds, d);
    var file, fds' := fds[d].file, fds - {d};
    var es' := Dropped(es, file, fds[d].mode);
    var k := Find(es, file, 0);
    assert k < |es|;
    OpenIffCounted(fds', file);
    forall i | 0 <= i < |es'|
      ensures IsOpen(fds', es'[i].file)
    {
      OpenIffCounted(fds, es'[i].file);
      OpenIffCounted(fds', es'[i].file);
    }
    DropCovers(es, fds, d);
  }

  /** Every file that is still open keeps its entry. */
  lemma DropCovers(es: seq<Entry>, fds: Table, d: int)
    requires Accounted(es, fds) && d in fds
    ensures var es', fds' := Dropped(es, fds[d].file, fds[d].mode), fds - {d};
            forall e :: e in fds' ==> exists i :: 0 <= i < |es'| && es'[i].file == fds'[e].file
  {
    hide Readers, Writers;
    CountsWithout(fds, d);
    var file, fds' := fds[d].file, fds - {d};
    var es' := Dropped(es, file, fds[d].mode);
    var k := Find(es, file, 0);
    OpenIffCounted(fds', file);
    forall e | e in fds'
      ensures exists i :: 0 <= i < |es'| && es'[i].file == fds'[e].file
    {
      var i :| 0 <= i < |es| && es[i].file == fds[e].file;
      if i == k { assert IsOpen(fds', file); }
      assert es'[if |es'| < |es| && i > k then i - 1 else i].file == fds[e].file;
    }
  }

  // ---------------------------------------------------------------- the file system

  /** The tree, the unnamed pipes, the list of open files and every descriptor of every process. */
  datatype State = State(
    tree: Namespace.Tree, pipes: set<int>, entries: seq<Entry>, fds: Table,
    nextFd: int)   // the number that the next descriptor gets; none is used twice

  datatype Op =
    | Make(path: Namespace.Text, cwd: int, kind: Namespace.Kind)
    | Remove(path: Namespace.Text, cwd: int)
    | Open(path: Namespace.Text, cwd: int, mode: Mode)
    | Clone(d: int)
    | OpenPipe(slots: nat)   // how many entries of the descriptor table of the process are free
    | Close(d: int)

  function Opened(s: State, file: int, m: Mode): State {
    s.(entries := Added(s.entries, file, m), fds := s.fds[s.nextFd := Descriptor(file, m)], nextFd := s.nextFd + 1)
  }

  /** closeFile; an unnamed pipe that nobody has open any more is freed. */
  function Closed(s: State, d: int): State
    requires d in s.fds
  {
    var fd := s.fds[d];
    var es := Dropped(s.entries, fd.file, fd.mode);
    s.(entries := es, fds := s.fds - {d},
       pipes := if Find(es, fd.file, 0) == |es| then s.pipes - {fd.file} else s.pipes)
  }

  /** newFile without a directory. */
  function WithPipe(s: State): State {
    s.(tree := s.tree.(next := s.tree.next + 1), pipes := s.pipes + {s.tree.next})
  }

  /** openUnnamedPipe. */
  function PipeOpened(s: State, slots: nat): State {
    var pipe, s1 := s.tree.next, WithPipe(s);
    if slots == 0 then s1.(pipes := s1.pipes - {pipe})
    else
      var one := Opened(s1, pipe, ReadOnly);
      if slots == 1 then Closed(one, s1.nextFd) else Opened(one, pipe, WriteOnly)
  }

  /** The files that isFileOpened finds. */
  function Live(es: seq<Entry>): set<int> {
    set i | 0 <= i < |es| :: es[i].file
  }

  predicate CanStep(s: State, op: Op)
    requires Namespace.Inv(s.tree)
  {
    match op
    case Make(path, cwd, _) => InTree(s, cwd) && Namespace.Strings(path)
    case Remove(path, cwd) => InTree(s, cwd) && Namespace.GetFile(s.tree, path, cwd) != Some(Namespace.ROOT)
    case Open(path, cwd, _) => InTree(s, cwd)
    case _ => true
  }

  predicate InTree(s: State, cwd: int) {
    cwd in s.tree.nodes && s.tree.nodes[cwd].kind == Namespace.Directory
  }

  function Step(s: State, op: Op): State
    requires Namespace.Inv(s.tree) && CanStep(s, op)
  {
    match op
    case Make(path, cwd, kind) => s.(tree := Namespace.Made(s.tree, path, cwd, kind).0)
    case Remove(path, cwd) =>
      (match Namespace.GetFile(s.tree, path, cwd)
       case Some(x) =>
         Namespace.WalkStaysInside(s.tree, path, cwd);
         s.(tree := Namespace.Removed(s.tree, x, Live(s.entries)).0)
       case None => s)
    case Open(path, cwd, m) =>
      (match Namespace.GetFile(s.tree, path, cwd)
       case Some(x) =>
         Namespace.WalkStaysInside(s.tree, path, cwd);
         if s.tree.nodes[x].kind == Namespace.Directory then s else Opened(s, x, m)
       case None => s)
    case Clone(d) => if d in s.fds then Opened(s, s.fds[d].file, s.fds[d].mode) else s
    case OpenPipe(slots) => PipeOpened(s, slots)
    case Close(d) => if d in s.fds then Closed(s, d) else s
  }

  predicate IsFile(s: State, x: int) {
    x in s.tree.nodes && s.tree.nodes[x].kind != Namespace.Directory
  }

  /** An open file is a file of the tree or an unnamed pipe, and an unnamed pipe is open. */
  ghost predicate Sound(s: State) {
    && Namespace.Inv(s.tree) && Accounted(s.entries, s.fds)
    && (forall d :: d in s.fds ==> d < s.nextFd)
    && (forall d :: d in s.fds ==> s.fds[d].file in s.pipes || IsFile(s, s.fds[d].file))
    && (forall p :: p in s.pipes ==> p < s.tree.next && p !in s.tree.nodes && IsOpen(s.fds, p))
  }

  /** What a step leaves of the files that stay open: their descriptors, and where they are in the tree. */
  ghost predicate Holds(s: State, s': State) {
    && Namespace.Inv(s.tree) && Namespace.Inv(s'.tree) && s.nextFd <= s'.nextFd
    && (forall d :: d in s'.fds && d < s.nextFd ==> d in s.fds && s'.fds[d] == s.fds[d])
    && (forall x :: x in Live(s.entries) && x in s.tree.nodes ==> x in s'.tree.nodes && SamePlace(s, s', x))
  }

  ghost predicate SamePlace(s: State, s': State, x: int)
    requires Namespace.Inv(s.tree) && Namespace.Inv(s'.tree) && x in s.tree.nodes && x in s'.tree.nodes
  {
    Namespace.PathOf(s'.tree, x) == Namespace.PathOf(s.tree, x)
  }

  lemma OpenedKeeps(s: State, file: int, m: Mode)
    requires Sound(s) && (file in s.pipes || IsFile(s, file))
    ensures Sound(Opened(s, file, m)) && Holds(s, Opened(s, file, m))
    ensures IsOpen(Opened(s, file, m).fds, file)
  {
    hide Namespace.Inv, Accounted, Added, Live;
    AddKeeps(s.entries, s.fds, s.nextFd, Descriptor(file, m));
    var s' := Opened(s, file, m);
    assert s'.fds[s.nextFd] == Descriptor(file, m);
    forall p | p in s.pipes
      ensures IsOpen(s'.fds, p)
    {
      var d :| d in s.fds && s.fds[d].file == p;
      assert s'.fds[d] == s.fds[d];
    }
  }

  lemma ClosedKeeps(s: State, d: int)
    requires Sound(s) && d in s.fds
    ensures Sound(Closed(s, d)) && Holds(s, Closed(s, d))
  {
    hide Namespace.Inv, Accounted, Dropped, Live;
    DropKeeps(s.entries, s.fds, d);
    var s' := Closed(s, d);
    EntryIffOpen(s'.entries, s'.fds, s.fds[d].file);
    forall p | p in s'.pipes
      ensures IsOpen(s'.fds, p)
    {
      var e :| e in s.fds && s.fds[e].file == p;
      if e != d { assert e in s'.fds; }
    }
  }

  lemma EntryIffOpen(es: seq<Entry>, fds: Table, file: int)
    requires Accounted(es, fds)
    ensures Find(es, file, 0) < |es| <==> IsOpen(fds, file)
  {
    if d :| d in fds && fds[d].file == file {
      var i :| 0 <= i < |es| && es[i].file == fds[d].file;
    }
  }

  lemma HoldsTwice(a: State, b: State, c: State)
    requires Holds(a, b) && Holds(b, c)
    requires forall x :: x in Live(a.entries) && x in a.tree.nodes && x in b.tree.nodes ==> x in Live(b.entries)
    ensures Holds(a, c)
  {
    hide Namespace.Inv, Live;
    forall x | x in Live(a.entries) && x in a.tree.nodes
      ensures x in c.tree.nodes && SamePlace(a, c, x)
    {
      assert SamePlace(a, b, x) && SamePlace(b, c, x);
    }
  }

  /** The first descriptor of a new pipe. */
  lemma FirstOpenKeeps(s: State, m: Mode)
    requires Sound(s)
    ensures var s' := Opened(WithPipe(s), s.tree.next, m); Sound(s') && Holds(s, s') && s.nextFd in s'.fds
  {
    hide Namespace.Inv, Accounted, Added, Live;
    var pipe := s.tree.next;
    NextIsFree(s);
    Namespace.NextMayGrow(s.tree);
    AddKeeps(s.entries, s.fds, s.nextFd, Descriptor(pipe, m));
    var s' := Opened(WithPipe(s), pipe, m);
    assert s'.fds[s.nextFd] == Descriptor(pipe, m);
    forall p | p in s.pipes
      ensures IsOpen(s'.fds, p)
    {
      var d :| d in s.fds && s.fds[d].file == p;
      assert s'.fds[d] == s.fds[d];
    }
    PlacesKept(s, s');
  }

  lemma NextIsFree(s: State)
    requires Sound(s)
    ensures s.tree.next !in s.tree.nodes && s.tree.next !in s.pipes
  {
    hide Accounted;
  }

  lemma PlacesKept(s: State, s': State)
    requires Namespace.Inv(s.tree) && Namespace.Inv(s'.tree)
    requires forall x :: x in s.tree.nodes ==> Namespace.SameFiles(s.tree, s'.tree, x)
    ensures forall x :: x in s.tree.nodes ==> x in s'.tree.nodes && SamePlace(s, s', x)
  {
    hide Namespace.Linked, Namespace.SortedList;
    forall x | x in s.tree.nodes
      ensures x in s'.tree.nodes && SamePlace(s, s', x)
    {
      Namespace.PathIsKept(s.tree, s'.tree, x);
    }
  }

  /** Opening drops no entry. */
  lemma OpenedStaysLive(s: State, file: int, m: Mode)
    ensures forall x :: x in Live(s.entries) ==> x in Live(Opened(s, file, m).entries)
  {
    var es, es' := s.entries, Added(s.entries, file, m);
    var k := Find(es, file, 0);
    forall i | 0 <= i < |es|
      ensures es[i].file in Live(es')
    {
      assert es'[if k < |es| then i else i + 1].file == es[i].file;
    }
  }

  /** openUnnamedPipe with two free slots opens both ends, with fewer it leaves no trace but a number. */
  lemma PipeKeeps(s: State, slots: nat)
    requires Sound(s)
    ensures Sound(PipeOpened(s, slots)) && Holds(s, PipeOpened(s, slots))
    ensures slots < 2 ==> PipeOpened(s, slots).fds == s.fds && PipeOpened(s, slots).pipes == s.pipes
                          && PipeOpened(s, slots).entries == s.entries
  {
    hide Namespace.Inv, Accounted, Live, Added, Dropped;
    var pipe, s1 := s.tree.next, WithPipe(s);
    NextIsFree(s);
    var one := Opened(s1, pipe, ReadOnly);
    FirstOpenKeeps(s, ReadOnly);
    OpenedStaysLive(s1, pipe, ReadOnly);
    if slots == 0 {
      Namespace.NextMayGrow(s.tree);
      PlacesKept(s, PipeOpened(s, slots));
      assert s1.pipes - {pipe} == s.pipes;
    } else if slots == 1 {
      ClosedKeeps(one, s1.nextFd);
      HoldsTwice(s, one, Closed(one, s1.nextFd));
      PipeComesAndGoes(s);
    } else {
      OpenedKeeps(one, pipe, WriteOnly);
      HoldsTwice(s, one, Opened(one, pipe, WriteOnly));
    }
  }

  /** With two free slots, the first descriptor reads the new pipe and the second writes it; nobody else has it. */
  lemma PipeHasTwoEnds(s: State, slots: nat)
    requires Sound(s) && slots >= 2
    ensures var s', pipe, d := PipeOpened(s, slots), s.tree.next, s.nextFd;
            && s'.fds == s.fds[d := Descriptor(pipe, ReadOnly)][d + 1 := Descriptor(pipe, WriteOnly)]
            && s'.nextFd == d + 2 && s'.pipes == s.pipes + {pipe} && pipe !in s.pipes
            && s'.tree.nodes == s.tree.nodes && s'.tree.next == pipe + 1
            && Readers(s'.fds, pipe) == {d} && Writers(s'.fds, pipe) == {d + 1}
            && exists i :: 0 <= i < |s'.entries| && s'.entries[i] == Entry(pipe, 1, 1)
  {
    hide Namespace.Inv, Accounted, Added, Live;
    var s', pipe, d := PipeOpened(s, slots), s.tree.next, s.nextFd;
    NextIsFree(s);
    PipeKeeps(s, slots);
    assert forall e :: e in s.fds ==> s.fds[e].file != pipe && e < d;
    assert d in s'.fds && d + 1 in s'.fds;
    assert Readers(s'.fds, pipe) == {d};
    assert Writers(s'.fds, pipe) == {d + 1};
    EntryCounts(s'.entries, s'.fds, d);
  }

  lemma EntryCounts(es: seq<Entry>, fds: Table, d: int)
    requires Accounted(es, fds) && d in fds
    ensures var f := fds[d].file;
            exists i :: 0 <= i < |es| && es[i] == Entry(f, |Readers(fds, f)|, |Writers(fds, f)|)
  {
    hide Readers, Writers;
    var i :| 0 <= i < |es| && es[i].file == fds[d].file;
    assert es[i] == Entry(fds[d].file, |Readers(fds, fds[d].file)|, |Writers(fds, fds[d].file)|);
  }

  lemma PipeComesAndGoes(s: State)
    requires Sound(s)
    ensures PipeOpened(s, 1) == s.(tree := s.tree.(next := s.tree.next + 1), nextFd := s.nextFd + 1)
  {
    hide Namespace.Inv, Accounted, Added, Dropped;
    NextIsFree(s);
    NoEntry(s);
    var pipe := s.tree.next;
    EntryComesAndGoes(s.entries, pipe);
    var fds := s.fds[s.nextFd := Descriptor(pipe, ReadOnly)];
    assert s.nextFd !in s.fds;
    assert fds - {s.nextFd} == s.fds;
    assert s.pipes + {pipe} - {pipe} == s.pipes;
  }

  lemma EntryComesAndGoes(es: seq<Entry>, file: int)
    requires Find(es, file, 0) == |es|
    ensures Dropped(Added(es, file, ReadOnly), file, ReadOnly) == es
  {
    var one := Added(es, file, ReadOnly);
    assert one == [Entry(file, 1, 0)] + es;
    assert Find(one, file, 0) == 0;
    assert one[..0] + one[1..] == es;
  }

  lemma NoEntry(s: State)
    requires Sound(s)
    ensures Find(s.entries, s.tree.next, 0) == |s.entries|
  {
    hide Namespace.Inv;
    NextIsFree(s);
    EntryIffOpen(s.entries, s.fds, s.tree.next);
  }

  lemma MakeKeeps(s: State, path: Namespace.Text, cwd: int, kind: Namespace.Kind)
    requires Sound(s) && CanStep(s, Make(path, cwd, kind))
    ensures Sound(Step(s, Make(path, cwd, kind))) && Holds(s, Step(s, Make(path, cwd, kind)))
  {
    hide Namespace.Inv, Accounted, Live, Namespace.Made, Namespace.GetFile;
    Namespace.MakeFileThenGetFile(s.tree, path, cwd, kind);
    PlacesKept(s, Step(s, Make(path, cwd, kind)));
  }

  /** A file with a descriptor is among those that isFileOpened finds. */
  lemma DescribedIsLive(s: State)
    requires Accounted(s.entries, s.fds)
    ensures forall d :: d in s.fds ==> s.fds[d].file in Live(s.entries)
  {
    hide Readers, Writers;
  }

  lemma RemoveKeeps(s: State, path: Namespace.Text, cwd: int)
    requires Sound(s) && CanStep(s, Remove(path, cwd))
    ensures Sound(Step(s, Remove(path, cwd))) && Holds(s, Step(s, Remove(path, cwd)))
  {
    hide Namespace.Linked, Namespace.SortedList, Accounted, Live, Namespace.Removed, Namespace.GetFile;
    DescribedIsLive(s);
    match Namespace.GetFile(s.tree, path, cwd)
    case None => PlacesKept(s, s) by { SameTree(s); }
    case Some(x) =>
      FoundInTree(s, path, cwd);
      Namespace.RemoveFileIff(s.tree, x, Live(s.entries), cwd);
      RemovedNext(s.tree, x, Live(s.entries));
  }

  lemma SameTree(s: State)
    ensures forall x :: x in s.tree.nodes ==> Namespace.SameFiles(s.tree, s.tree, x)
  {
  }

  lemma FoundInTree(s: State, path: Namespace.Text, cwd: int)
    requires Namespace.Inv(s.tree) && cwd in s.tree.nodes
    ensures var f := Namespace.GetFile(s.tree, path, cwd); f.Some? ==> f.value in s.tree.nodes
  {
    hide Namespace.Linked, Namespace.SortedList;
    Namespace.WalkStaysInside(s.tree, path, cwd);
  }

  lemma RemovedNext(t: Namespace.Tree, x: int, live: set<int>)
    requires Namespace.Inv(t) && x in t.nodes && x != Namespace.ROOT
    ensures var t' := Namespace.Removed(t, x, live).0; t'.next == t.next && t'.nodes.Keys <= t.nodes.Keys
  {
    hide Namespace.Inv, Namespace.Removed;
  }

  lemma StandsStill(s: State)
    requires Sound(s)
    ensures Holds(s, s)
  {
    hide Namespace.Inv, Accounted, Live;
    SameTree(s);
    PlacesKept(s, s);
  }

  lemma StepKeeps(s: State, op: Op)
    requires Sound(s) && CanStep(s, op)
    ensures Sound(Step(s, op)) && Holds(s, Step(s, op))
  {
    hide Namespace.Linked, Namespace.SortedList, Accounted, Live, Opened, Closed, PipeOpened, Holds, Namespace.GetFile,
      Namespace.Made, Namespace.Removed;
    StandsStill(s);
    match op
    case Make(path, cwd, kind) => MakeKeeps(s, path, cwd, kind);
    case Remove(path, cwd) => RemoveKeeps(s, path, cwd);
    case Open(path, cwd, m) =>
      FoundInTree(s, path, cwd);
      var f := Namespace.GetFile(s.tree, path, cwd);
      if f.Some? && IsFile(s, f.value) { OpenedKeeps(s, f.value, m); }
    case Clone(d) => if d in s.fds { OpenedKeeps(s, s.fds[d].file, s.fds[d].mode); }
    case OpenPipe(slots) => PipeKeeps(s, slots);
    case Close(d) => if d in s.fds { ClosedKeeps(s, d); }
  }

  /**
   What each step does to the descriptors, the pipes and the tree. Opening gives a new descriptor of the file
   that the path leads to, unless that is a directory; a clone has the file and the mode of the original;
   closing takes one descriptor away, and the unnamed pipe with the last of its descriptors. A removal
   takes the files of its target that come before every open one.
   */
  lemma StepMoves(s: State, op: Op)
    requires Sound(s) && CanStep(s, op)
    ensures var s' := Step(s, op);
            match op
            case Make(path, cwd, kind) => s' == s.(tree := Namespace.Made(s.tree, path, cwd, kind).0)
            case Remove(path, cwd) =>
              var f := Namespace.GetFile(s.tree, path, cwd);
              && s' == s.(tree := s'.tree) && Namespace.Pruned(s.tree, s'.tree) && (f == None ==> s' == s)
              && (f.Some? ==> forall y :: y in s.tree.nodes ==>
                    (y !in s'.tree.nodes <==>
                       Namespace.Under(s.tree, y, f.value) && Removal.EarlierThanOpen(s.tree, f.value, Live(s.entries), y)))
            case Open(path, cwd, m) =>
              var f := Namespace.GetFile(s.tree, path, cwd);
              if f.Some? && IsFile(s, f.value) then Gains(s, s', Descriptor(f.value, m)) else s' == s
            case Clone(d) => if d in s.fds then Gains(s, s', s.fds[d]) else s' == s
            case OpenPipe(slots) =>
              var pipe := s.tree.next;
              && s'.tree == s.tree.(next := pipe + 1)
              && s'.pipes == (if slots >= 2 then s.pipes + {pipe} else s.pipes)
              && (if slots >= 2
                  then s'.fds == s.fds[s.nextFd := Descriptor(pipe, ReadOnly)][s.nextFd + 1 := Descriptor(pipe, WriteOnly)]
                  else s'.fds == s.fds && s'.entries == s.entries)
            case Close(d) =>
              && s'.fds == s.fds - {d} && s'.nextFd == s.nextFd && s'.tree == s.tree
              && (d in s.fds ==> s'.pipes == if IsOpen(s'.fds, s.fds[d].file) then s.pipes else s.pipes - {s.fds[d].file})
              && (d !in s.fds ==> s' == s)
  {
    hide Namespace.Linked, Namespace.SortedList, Accounted, Added, Dropped, Live, IsOpen, Readers, Writers,
      Namespace.Under, Namespace.Pruned, Removal.EarlierThanOpen,
      Namespace.GetFile, Namespace.Made, Namespace.Removed, PipeOpened;
    match op
    case Open(path, cwd, m) => FoundInTree(s, path, cwd);
    case Remove(path, cwd) => RemoveMoves(s, path, cwd);
    case OpenPipe(slots) =>
      PipeKeeps(s, slots);
      PipeTree(s, slots);
      if slots >= 2 { PipeHasTwoEnds(s, slots); }
    case Close(d) =>
      if d in s.fds {
        DropKeeps(s.entries, s.fds, d);
        EntryIffOpen(Closed(s, d).entries, Closed(s, d).fds, s.fds[d].file);
      }
    case _ =>
  }

  lemma RemoveMoves(s: State, path: Namespace.Text, cwd: int)
    requires Sound(s) && CanStep(s, Remove(path, cwd))
    ensures var f, t' := Namespace.GetFile(s.tree, path, cwd), Step(s, Remove(path, cwd)).tree;
            && Namespace.Pruned(s.tree, t')
            && (f.Some? ==> forall y :: y in s.tree.nodes ==>
                  (y !in t'.nodes <==>
                     Namespace.Under(s.tree, y, f.value) && Removal.EarlierThanOpen(s.tree, f.value, Live(s.entries), y)))
  {
    hide Namespace.Linked, Namespace.SortedList, Accounted, Live, Namespace.Removed, Namespace.GetFile, Namespace.Under,
      Removal.EarlierThanOpen, Namespace.Pruned;
    FoundInTree(s, path, cwd);
    match Namespace.GetFile(s.tree, path, cwd)
    case None => Namespace.PrunedSelf(s.tree);
    case Some(x) =>
      forall y | y in s.tree.nodes
        ensures y !in Step(s, Remove(path, cwd)).tree.nodes <==>
                  Namespace.Under(s.tree, y, x) && Removal.EarlierThanOpen(s.tree, x, Live(s.entries), y)
      {
        Removal.RemovedIff(s.tree, x, Live(s.entries), y);
      }
  }

  lemma PipeTree(s: State, slots: nat)
    ensures PipeOpened(s, slots).tree == s.tree.(next := s.tree.next + 1)
  {
    hide Added, Dropped;
  }

  /** One descriptor more, under the next number; tree and pipes are as before. */
  ghost predicate Gains(s: State, s': State, fd: Descriptor) {
    && s'.fds == s.fds[s.nextFd := fd] && s.nextFd !in s.fds && s'.nextFd == s.nextFd + 1
    && s'.tree == s.tree && s'.pipes == s.pipes
  }

  // ------------------------------------------------------------------ every run

  ghost predicate Runs(s: State, ops: seq<Op>, t: State)
    decreases ops
  {
    if ops == [] then t == s
    else Namespace.Inv(s.tree) && CanStep(s, ops[0]) && Runs(Step(s, ops[0]), ops[1..], t)
  }

  /** Nothing is open. */
  ghost predicate Started(s: State) {
    Namespace.Inv(s.tree) && s.pipes == {} && s.entries == [] && s.fds == map[]
  }

  /** A descriptor number is never used for a second descriptor. */
  lemma {:induction false} DescriptorsAreOnce(s: State, ops: seq<Op>, t: State, d: int)
    requires Sound(s) && Runs(s, ops, t)
    ensures Sound(t) && s.nextFd <= t.nextFd
    ensures d in t.fds && d < s.nextFd ==> d in s.fds && t.fds[d] == s.fds[d]
    decreases ops
  {
    hide Namespace.Inv, Sound, Step, CanStep, Live, SamePlace;
    if ops != [] {
      SoundTree(s);
      StepKeeps(s, ops[0]);
      DescriptorsAreOnce(Step(s, ops[0]), ops[1..], t, d);
    }
  }

  lemma SoundTree(s: State)
    requires Sound(s)
    ensures Namespace.Inv(s.tree) && Accounted(s.entries, s.fds)
    ensures forall d :: d in s.fds ==> d < s.nextFd
    ensures forall d :: d in s.fds ==> s.fds[d].file in Live(s.entries)
  {
    hide Namespace.Inv;
    DescribedIsLive(s);
  }

  /**
   The accounting, on every run: one entry for each open file and for no other, with as many readers and
   writers as it has descriptors of those modes, and no unnamed pipe that nobody has open.
   */
  lemma EntriesCountDescriptors(s: State, ops: seq<Op>, t: State)
    requires Started(s) && Runs(s, ops, t)
    ensures Accounted(t.entries, t.fds)
    ensures forall p :: p in t.pipes ==> IsOpen(t.fds, p)
  {
    hide Namespace.Inv, Runs;
    DescriptorsAreOnce(s, ops, t, 0);
  }

  /**
   As long as a descriptor is live its file stays where it is in the tree: nothing that is removed, not
   the file, not a directory above it, takes it away.
   */
  lemma {:induction false} OpenFilesStay(s: State, ops: seq<Op>, t: State, d: int)
    requires Sound(s) && Runs(s, ops, t) && d in s.fds && d in t.fds
    ensures t.fds[d] == s.fds[d] && Namespace.Inv(s.tree) && Namespace.Inv(t.tree)
    ensures var x := s.fds[d].file;
            x in s.tree.nodes ==> x in t.tree.nodes && SamePlace(s, t, x)
    decreases ops
  {
    hide Namespace.Inv, Sound, Step, CanStep, Live, SamePlace, Namespace.PathOf;
    SoundTree(s);
    DescriptorsAreOnce(s, ops, t, d);
    if ops == [] {
      StandsStill(s);
    } else {
      var s1, x := Step(s, ops[0]), s.fds[d].file;
      StepKeeps(s, ops[0]);
      SoundTree(s1);
      DescriptorsAreOnce(s1, ops[1..], t, d);
      OpenFilesStay(s1, ops[1..], t, d);
      if x in s.tree.nodes {
        SameTwice(s, s1, t, x);
      }
    }
  }

  lemma SameTwice(a: State, b: State, c: State, x: int)
    requires Namespace.Inv(a.tree) && Namespace.Inv(b.tree) && Namespace.Inv(c.tree)
    requires x in a.tree.nodes && x in b.tree.nodes && x in c.tree.nodes && SamePlace(a, b, x) && SamePlace(b, c, x)
    ensures SamePlace(a, c, x)
  {
    hide Namespace.Inv;
  }

  /** So getFile of the path that the file had when it was opened finds it, if the path is short enough. */
  lemma OpenFilesAreFound(s: State, ops: seq<Op>, t: State, d: int, cwd: int)
    requires Sound(s) && Runs(s, ops, t) && d in s.fds && d in t.fds && cwd in t.tree.nodes
    requires s.fds[d].file in s.tree.nodes
    ensures Namespace.Inv(s.tree) && Namespace.Inv(t.tree)
    ensures var path := Namespace.CwdPath(s.tree, s.fds[d].file);
            |path| - 1 <= Namespace.MAX_PATH_LENGTH ==> Namespace.GetFile(t.tree, path, cwd) == Some(s.fds[d].file)
  {
    hide Sound, Runs, Namespace.Linked, Namespace.SortedList, Namespace.PathOf, Namespace.GetFile;
    OpenFilesStay(s, ops, t, d);
    Namespace.PathLeadsBackIff(t.tree, s.fds[d].file, cwd);
  }

  // ------------------------------------------------------------------ the list in place

  class OpenedFiles {
    var entries: seq<Entry>   // firstOpenedFile
    var fds: Table            // the descriptors that were handed out
    var nextFd: int

    constructor ()
      ensures entries == [] && fds == map[] && Accounted(entries, fds)
    {
      entries, fds, nextFd := [], map[], 0;
    }

    /** openFile on a file that is no directory. */
    method OpenFile(file: int, mode: Mode) returns (fd: int)
      requires Accounted(entries, fds) && forall d :: d in fds ==> d < nextFd
      modifies this
      ensures Accounted(entries, fds) && forall d :: d in fds ==> d < nextFd
      ensures entries == Added(old(entries), file, mode)
      ensures fd == old(nextFd) && nextFd == fd + 1 && fds == old(fds)[fd := Descriptor(file, mode)]
    {
      hide Accounted;
      AddKeeps(entries, fds, nextFd, Descriptor(file, mode));
      var k := 0;
      while k < |entries| && entries[k].file != file
        invariant 0 <= k <= |entries| && Find(entries, file, k) == Find(entries, file, 0)
      {
        k := k + 1;
      }
      if k == |entries| {
        entries := [Entry(file, 0, 0)] + entries;
        k := 0;
      }
      if mode == ReadOnly || mode == ReadWrite {
        entries := entries[k := entries[k].(readers := entries[k].readers + 1)];
      }
      if mode == WriteOnly || mode == ReadWrite {
        entries := entries[k := entries[k].(writers := entries[k].writers + 1)];
      }
      assert entries == Added(old(entries), file, mode);
      fd := nextFd;
      fds := fds[fd := Descriptor(file, mode)];
      nextFd := nextFd + 1;
    }

    /** closeFile; lastWriter tells whether the descriptor was the last one that writes the file. */
    method CloseFile(fd: int) returns (lastWriter: bool)
      requires Accounted(entries, fds) && fd in fds
      modifies this
      ensures Accounted(entries, fds) && nextFd == old(nextFd)
      ensures var d := old(fds)[fd];
              && entries == Dropped(old(entries), d.file, d.mode) && fds == old(fds) - {fd}
              && (lastWriter <==> Writes(d.mode) && Writers(fds, d.file) == {})
    {
      hide Accounted, Readers, Writers;
      var file, mode := fds[fd].file, fds[fd].mode;
      DropKeeps(entries, fds, fd);
      EntryOf(entries, fds, fd);
      var k := 0;
      while entries[k].file != file
        invariant 0 <= k <= Find(entries, file, 0) < |entries| && Find(entries, file, k) == Find(entries, file, 0)
        decreases |entries| - k
      {
        k := k + 1;
      }
      lastWriter := false;
      if mode == ReadOnly || mode == ReadWrite {
        entries := entries[k := entries[k].(readers := entries[k].readers - 1)];
      }
      if mode == WriteOnly || mode == ReadWrite {
        entries := entries[k := entries[k].(writers := entries[k].writers - 1)];
        lastWriter := entries[k].writers == 0;
      }
      if entries[k].readers == 0 && entries[k].writers == 0 {
        entries := entries[..k] + entries[k + 1..];
      }
      fds := fds - {fd};
      assert entries == Dropped(old(entries), file, mode);
    }
  }

  lemma EntryOf(es: seq<Entry>, fds: Table, d: int)
    requires Accounted(es, fds) && d in fds
    ensures var k := Find(es, fds[d].file, 0);
            && k < |es| && es[k].file == fds[d].file
            && es[k].writers - (if Writes(fds[d].mode) then 1 else 0) == |Writers(fds - {d}, fds[d].file)|
  {
    hide Readers, Writers;
    CountsWithout(fds, d);
    OpenIffCounted(fds, fds[d].file);
    EntryIffOpen(es, fds, fds[d].file);
  }
}
