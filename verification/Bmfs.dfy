/** Bootloader/BMFS/bmfs.c: contiguous files, placed by `create` in the lowest gap that is large enough. */
module Bmfs {

  const RECORDS: nat := 64
  const WORD: int := 0x1_0000_0000_0000_0000   // unsigned long long
  const UNUSED: char := '\U{0001}'

  /** A directory record. An empty name ends the directory, a name that starts with 0x01 is a deleted record. */
  datatype Entry = Entry(name: string, start: nat, reserved: nat)

  predicate IsEnd(e: Entry) { e.name == "" }

  predicate IsDeleted(e: Entry) { e.name != "" && e.name[0] == UNUSED }

  predicate IsFile(e: Entry) { e.name != "" && e.name[0] != UNUSED }

  /** A name that create accepts. */
  predicate IsName(name: string) { name != "" && name[0] != UNUSED }

  function EndOf(e: Entry): nat { e.start + e.reserved }

  /** The records in front of the first 0x00. */
  function Used(dir: seq<Entry>): (n: nat)
    ensures n <= |dir|
    ensures forall i :: 0 <= i < n ==> !IsEnd(dir[i])
    ensures n < |dir| ==> IsEnd(dir[n])
  {
    if dir == [] || IsEnd(dir[0]) then 0
    else
      var n := 1 + Used(dir[1..]);
      assert forall i :: 0 < i < n ==> dir[i] == dir[1..][i - 1];
      n
  }

  /** A place for b blocks that no file of the records has a block of. */
  ghost predicate Fits(files: seq<Entry>, blocks: nat, p: int, b: nat) {
    && 1 <= p && p + b <= blocks - 1
    && forall e :: e in files && IsFile(e) ==> EndOf(e) <= p || p + b <= e.start
  }

  /** Two files share no block. */
  ghost predicate Apart(a: Entry, b: Entry) {
    IsFile(a) && IsFile(b) ==> EndOf(a) <= b.start || EndOf(b) <= a.start
  }

  /** A file lies between the two reserved blocks of the disk. */
  ghost predicate Placed(e: Entry, blocks: nat) {
    IsFile(e) ==> 1 <= e.start && e.reserved >= 1 && EndOf(e) <= blocks - 1
  }

  ghost predicate Sound(files: seq<Entry>, blocks: nat) {
    && (forall i :: 0 <= i < |files| ==> Placed(files[i], blocks))
    && (forall i, j :: 0 <= i < j < |files| ==> Apart(files[i], files[j]))
  }

  // ------------------------------------------------------------ sorting

  /** StartingBlockCmp: files by starting block, deleted records behind them. */
  predicate Before(a: Entry, b: Entry) {
    !IsDeleted(a) && (IsDeleted(b) || a.start <= b.start)
  }

  function Insert(e: Entry, s: seq<Entry>): (r: seq<Entry>)
    ensures multiset(r) == multiset(s) + multiset{e}
  {
    if s == [] || Before(e, s[0]) then
      assert [e] + s == [e] + s;
      [e] + s
    else
      assert s == [s[0]] + s[1..];
      [s[0]] + Insert(e, s[1..])
  }

  function Sorted(s: seq<Entry>): (r: seq<Entry>)
    ensures multiset(r) == multiset(s)
  {
    if s == [] then []
    else
      assert s == [s[0]] + s[1..];
      Insert(s[0], Sorted(s[1..]))
  }

  /** Files first, in the order of their starting blocks. */
  ghost predicate FilesFirst(s: seq<Entry>) {
    forall i, j :: 0 <= i < j < |s| && !IsDeleted(s[j]) ==> Before(s[i], s[j])
  }

  ghost predicate Heads(e: Entry, s: seq<Entry>) {
    forall y :: y in s && !IsDeleted(y) ==> Before(e, y)
  }

  lemma OrderedCons(e: Entry, s: seq<Entry>)
    ensures FilesFirst([e] + s) <==> Heads(e, s) && FilesFirst(s)
  {
    hide Before, IsDeleted;
    var r := [e] + s;
    if FilesFirst(r) {
      assert r[0] == e;
      forall y | y in s && !IsDeleted(y)
        ensures Before(e, y)
      {
        var k :| 0 <= k < |s| && s[k] == y;
        assert r[k + 1] == y;
      }
      forall i, j | 0 <= i < j < |s| && !IsDeleted(s[j])
        ensures Before(s[i], s[j])
      {
        assert s[i] == r[i + 1] && s[j] == r[j + 1];
      }
    }
    if Heads(e, s) && FilesFirst(s) {
      forall i, j | 0 <= i < j < |r| && !IsDeleted(r[j])
        ensures Before(r[i], r[j])
      {
        assert r[j] == s[j - 1] && s[j - 1] in s;
        if i > 0 { assert r[i] == s[i - 1]; }
      }
    }
  }

  lemma InsertMembers(e: Entry, s: seq<Entry>)
    ensures forall y :: y in Insert(e, s) <==> y == e || y in s
  {
    forall y
      ensures y in Insert(e, s) <==> y == e || y in s
    {
      assert y in Insert(e, s) <==> y in multiset(Insert(e, s));
    }
  }

  lemma {:induction false} InsertKeepsOrder(e: Entry, s: seq<Entry>)
    requires FilesFirst(s)
    ensures FilesFirst(Insert(e, s))
  {
    hide FilesFirst;
    if s == [] {
      OrderedCons(e, s);
    } else {
      var tail := s[1..];
      assert s == [s[0]] + tail;
      OrderedCons(s[0], tail);
      if Before(e, s[0]) {
        OrderedCons(e, s);
      } else {
        InsertKeepsOrder(e, tail);
        InsertMembers(e, tail);
        OrderedCons(s[0], Insert(e, tail));
      }
    }
  }

  lemma {:induction false} SortedIsOrdered(s: seq<Entry>)
    ensures FilesFirst(Sorted(s))
  {
    hide Insert;
    if s != [] {
      SortedIsOrdered(s[1..]);
      InsertKeepsOrder(s[0], Sorted(s[1..]));
    }
  }

  lemma SortedMembers(s: seq<Entry>)
    ensures forall e :: e in Sorted(s) <==> e in s
  {
    forall e
      ensures e in Sorted(s) <==> e in s
    {
      assert e in Sorted(s) <==> e in multiset(Sorted(s));
    }
  }

  // ------------------------------------------------------ the gap search

  /** Where the gap in front of record t ends. */
  function ThisStart(s: seq<Entry>, t: nat, blocks: nat): int
    requires t <= |s|
  {
    if t == |s| || IsDeleted(s[t]) then blocks - 1 else s[t].start
  }

  /** The loop of create from record t on, `prev` being the end of the file before; 0 if nothing fits. */
  function Search(s: seq<Entry>, t: nat, prev: nat, blocks: nat, b: nat): (start: nat)
    requires t <= |s|
    decreases |s| - t
  {
    if (ThisStart(s, t, blocks) - prev) % WORD >= b then prev
    else if t < |s| then Search(s, t + 1, EndOf(s[t]), blocks, b)
    else 0
  }

  /** A deleted record whose old end leaves room up to the end of the disk. */
  ghost predicate StaleRoom(s: seq<Entry>, blocks: nat, b: nat) {
    exists e :: e in s && IsDeleted(e) && EndOf(e) + b <= blocks - 1
  }

  /** The records are in order and each of them, deleted or not, was placed between the reserved blocks. */
  ghost predicate Searchable(s: seq<Entry>, blocks: nat) {
    && FilesFirst(s) && Sound(s, blocks) && 3 <= blocks < WORD
    && (forall e :: e in s ==> !IsEnd(e) && 1 <= EndOf(e) <= blocks - 1)
  }

  /** While files are scanned, no place in front of `prev` can fit, and no file scanned ends behind it. */
  ghost predicate Scanned(s: seq<Entry>, t: nat, prev: nat, blocks: nat, b: nat) {
    && t <= |s| && 1 <= prev <= blocks - 1 && prev == (if t == 0 then 1 else EndOf(s[t - 1]))
    && (forall i :: 0 <= i < t ==> IsFile(s[i]) && EndOf(s[i]) <= prev)
    && (forall p :: Fits(s, blocks, p, b) ==> prev <= p)
  }

  /** The result of the search is the lowest fitting place, whenever there is one. */
  lemma {:induction false} SearchIsLowest(s: seq<Entry>, t: nat, prev: nat, blocks: nat, b: nat)
    requires Searchable(s, blocks) && b >= 1 && Scanned(s, t, prev, blocks, b)
    ensures var r := Search(s, t, prev, blocks, b);
            if exists p :: Fits(s, blocks, p, b)
            then Fits(s, blocks, r, b) && forall p :: Fits(s, blocks, p, b) ==> r <= p
            else (r != 0 <==> StaleRoom(s, blocks, b)) && (r != 0 ==> 1 <= r && r + b <= blocks - 1)
    decreases |s| - t
  {
    hide FilesFirst, Sound, Fits, StaleRoom;
    var next := ThisStart(s, t, blocks);
    ThisIsBehind(s, t, prev, blocks, b);
    if next - prev >= b {
      GapFits(s, t, prev, blocks, b);
    } else if t < |s| && IsFile(s[t]) {
      NextScanned(s, t, prev, blocks, b);
      SearchIsLowest(s, t + 1, EndOf(s[t]), blocks, b);
    } else {
      if t < |s| { assert s[t] in s; }
      NothingFits(s, t, prev, blocks, b);
      if t < |s| {
        RestIsDeleted(s, t, blocks);
        SearchStale(s, t + 1, EndOf(s[t]), blocks, b);
      }
      StaleIsBehind(s, t, blocks, b);
    }
  }

  lemma ThisIsBehind(s: seq<Entry>, t: nat, prev: nat, blocks: nat, b: nat)
    requires Searchable(s, blocks) && Scanned(s, t, prev, blocks, b)
    ensures prev <= ThisStart(s, t, blocks) < WORD
    ensures (ThisStart(s, t, blocks) - prev) % WORD == ThisStart(s, t, blocks) - prev
  {
    if t < |s| && !IsDeleted(s[t]) {
      assert s[t] in s && IsFile(s[t]) && EndOf(s[t]) <= blocks - 1;
      if t > 0 {
        assert IsFile(s[t - 1]) && s[t - 1].start <= s[t].start;
      }
    }
  }

  lemma GapFits(s: seq<Entry>, t: nat, prev: nat, blocks: nat, b: nat)
    requires Searchable(s, blocks) && Scanned(s, t, prev, blocks, b) && ThisStart(s, t, blocks) - prev >= b
    ensures Fits(s, blocks, prev, b)
  {
    if t < |s| && !IsDeleted(s[t]) { assert s[t] in s && IsFile(s[t]); }
    forall e | e in s && IsFile(e)
      ensures EndOf(e) <= prev || prev + b <= e.start
    {
      var i :| 0 <= i < |s| && s[i] == e;
      assert IsFile(s[i]) && !IsDeleted(s[i]);
      if i < t { assert EndOf(s[i]) <= prev; }
      if i > t { assert !IsDeleted(s[i]) ==> !IsDeleted(s[t]) && s[t].start <= s[i].start; }
    }
  }

  lemma NextScanned(s: seq<Entry>, t: nat, prev: nat, blocks: nat, b: nat)
    requires Searchable(s, blocks) && Scanned(s, t, prev, blocks, b)
    requires t < |s| && IsFile(s[t]) && prev <= s[t].start < prev + b
    ensures Scanned(s, t + 1, EndOf(s[t]), blocks, b)
  {
    forall p | Fits(s, blocks, p, b)
      ensures EndOf(s[t]) <= p
    {
      assert s[t] in s;
    }
  }

  lemma NothingFits(s: seq<Entry>, t: nat, prev: nat, blocks: nat, b: nat)
    requires Scanned(s, t, prev, blocks, b) && prev + b > blocks - 1
    ensures !exists p :: Fits(s, blocks, p, b)
  {
  }

  lemma RestIsDeleted(s: seq<Entry>, t: nat, blocks: nat)
    requires Searchable(s, blocks) && t < |s| && !IsFile(s[t])
    ensures forall i :: t <= i < |s| ==> IsDeleted(s[i])
  {
    assert s[t] in s;
    forall i | t < i < |s|
      ensures IsDeleted(s[i])
    {
    }
  }

  /** Past the files, the loop tries the old ends of the deleted records. */
  lemma {:induction false} SearchStale(s: seq<Entry>, t: nat, prev: nat, blocks: nat, b: nat)
    requires t <= |s| && 1 <= prev <= blocks - 1 < WORD && b >= 1
    requires forall i :: t <= i < |s| ==> IsDeleted(s[i]) && 1 <= EndOf(s[i]) <= blocks - 1
    ensures var r := Search(s, t, prev, blocks, b);
            && (r != 0 <==> prev + b <= blocks - 1 || exists i :: t <= i < |s| && EndOf(s[i]) + b <= blocks - 1)
            && (r != 0 ==> 1 <= r && r + b <= blocks - 1)
    decreases |s| - t
  {
    if prev + b > blocks - 1 && t < |s| {
      SearchStale(s, t + 1, EndOf(s[t]), blocks, b);
    }
  }

  lemma StaleIsBehind(s: seq<Entry>, t: nat, blocks: nat, b: nat)
    requires t <= |s| && forall i :: 0 <= i < t ==> IsFile(s[i])
    requires forall i :: t <= i < |s| ==> IsDeleted(s[i])
    ensures StaleRoom(s, blocks, b) <==> exists i :: t <= i < |s| && EndOf(s[i]) + b <= blocks - 1
  {
    if StaleRoom(s, blocks, b) {
      var e :| e in s && IsDeleted(e) && EndOf(e) + b <= blocks - 1;
      var i :| 0 <= i < |s| && s[i] == e;
      assert EndOf(s[i]) + b <= blocks - 1;
    }
    if i :| t <= i < |s| && EndOf(s[i]) + b <= blocks - 1 {
      assert s[i] in s;
    }
  }

  // --------------------------------------------------- sorting loses nothing

  lemma SoundCons(e: Entry, s: seq<Entry>, blocks: nat)
    ensures Sound([e] + s, blocks) <==> Sound(s, blocks) && Placed(e, blocks) && forall y :: y in s ==> Apart(e, y)
  {
    hide Apart, Placed;
    var r := [e] + s;
    if Sound(r, blocks) {
      assert r[0] == e;
      forall i | 0 <= i < |s|
        ensures Placed(s[i], blocks) && Apart(e, s[i])
      {
        assert s[i] == r[i + 1];
      }
      forall i, j | 0 <= i < j < |s|
        ensures Apart(s[i], s[j])
      {
        assert s[i] == r[i + 1] && s[j] == r[j + 1];
      }
    }
    if Sound(s, blocks) && Placed(e, blocks) && forall y :: y in s ==> Apart(e, y) {
      forall i, j | 0 <= i < j < |r|
        ensures Apart(r[i], r[j])
      {
        assert r[j] == s[j - 1] && s[j - 1] in s;
        if i > 0 { assert r[i] == s[i - 1]; }
      }
      forall i | 0 <= i < |r|
        ensures Placed(r[i], blocks)
      {
        if i > 0 { assert r[i] == s[i - 1]; }
      }
    }
  }

  lemma {:induction false} InsertKeepsSound(e: Entry, s: seq<Entry>, blocks: nat)
    ensures Sound(Insert(e, s), blocks) <==> Sound([e] + s, blocks)
  {
    hide Sound;
    if s == [] {
      assert [e] + s == [e];
    } else if !Before(e, s[0]) {
      var tail := s[1..];
      assert s == [s[0]] + tail;
      InsertKeepsSound(e, tail, blocks);
      InsertMembers(e, tail);
      SoundCons(s[0], Insert(e, tail), blocks);
      SoundCons(e, s, blocks);
      SoundCons(e, tail, blocks);
      SoundCons(s[0], tail, blocks);
      assert Apart(s[0], e) == Apart(e, s[0]);
    }
  }

  lemma {:induction false} SortedIsSound(s: seq<Entry>, blocks: nat)
    ensures Sound(Sorted(s), blocks) <==> Sound(s, blocks)
  {
    hide Sound, Insert;
    if s != [] {
      var tail := s[1..];
      assert s == [s[0]] + tail;
      SortedIsSound(tail, blocks);
      SortedMembers(tail);
      InsertKeepsSound(s[0], Sorted(tail), blocks);
      SoundCons(s[0], Sorted(tail), blocks);
      SoundCons(s[0], tail, blocks);
    }
  }

  // ---------------------------------------------------------- the directory

  /** The records of a directory that are in use or deleted. */
  function Records(dir: seq<Entry>): seq<Entry> {
    dir[..Used(dir)]
  }

  /** What format establishes and what create and delete are meant to keep. */
  ghost predicate Directory(dir: seq<Entry>, blocks: nat) {
    && |dir| == RECORDS && 3 <= blocks < WORD
    && Sound(Records(dir), blocks)
    && (forall e :: e in Records(dir) ==> 1 <= EndOf(e) <= blocks - 1)
  }

  predicate Present(dir: seq<Entry>, name: string) {
    exists e :: e in Records(dir) && IsFile(e) && e.name == name
  }

  /** num_used_entries: the source counts only up to a 0x00 that it has seen. */
  function Counted(dir: seq<Entry>): (n: nat)
    ensures n <= Used(dir)
  {
    if Used(dir) < |dir| then Used(dir) else 0
  }

  /** The first deleted record, or else the 0x00 record; |dir| if there is neither. */
  function FirstFree(dir: seq<Entry>): (i: nat)
    ensures i <= Used(dir)
    ensures i < Used(dir) ==> IsDeleted(dir[i])
    ensures forall j :: 0 <= j < i ==> IsFile(dir[j])
  {
    if dir == [] || !IsFile(dir[0]) then 0
    else
      var i := 1 + FirstFree(dir[1..]);
      assert forall j :: 0 < j < i ==> dir[j] == dir[1..][j - 1];
      i
  }

  /** Blocks of two MiB each, as many as the size needs. */
  function BlocksFor(maxsize: nat): (b: nat)
    ensures maxsize <= 2 * b <= maxsize + 1
  {
    (if maxsize % 2 != 0 then maxsize + 1 else maxsize) / 2
  }

  function Start(dir: seq<Entry>, maxsize: nat, blocks: nat): nat {
    Search(Sorted(dir[..Counted(dir)]), 0, 1, blocks, BlocksFor(maxsize))
  }

  /** The directory after a record was written; a record that was the 0x00 one moves the 0x00 on. */
  function Written(dir: seq<Entry>, slot: nat, e: Entry): (d: seq<Entry>)
    requires slot < |dir|
    ensures |d| == |dir|
  {
    var d := dir[slot := e];
    if slot == Counted(dir) && slot + 1 < |dir| then d[slot + 1 := d[slot + 1].(name := "")] else d
  }

  function Created(dir: seq<Entry>, name: string, maxsize: nat, blocks: nat): (d: seq<Entry>)
    ensures |d| == |dir|
  {
    if Present(dir, name) || FirstFree(dir) >= |dir| || Start(dir, maxsize, blocks) == 0 then dir
    else Written(dir, FirstFree(dir), Entry(name, Start(dir, maxsize, blocks), BlocksFor(maxsize)))
  }

  lemma UsedIs(dir: seq<Entry>, n: nat)
    requires n <= |dir| && (forall i :: 0 <= i < n ==> !IsEnd(dir[i])) && (n < |dir| ==> IsEnd(dir[n]))
    ensures Used(dir) == n
  {
    var u := Used(dir);
    assert u < |dir| ==> IsEnd(dir[u]);
    assert n < |dir| ==> IsEnd(dir[n]);
  }

  /** Writing a file into the first free record changes no other record that counts. */
  lemma WrittenRecords(dir: seq<Entry>, e: Entry)
    requires Used(dir) < |dir| && IsFile(e)
    ensures var i, n := FirstFree(dir), Used(dir);
            var r := Records(dir);
            Records(Written(dir, i, e)) == if i < n then r[i := e] else r + [e]
  {
    hide Used, FirstFree, Written, Records, IsEnd;
    var i, n := FirstFree(dir), Used(dir);
    WrittenCases(dir, i, e);
    if i < n {
      ReplacedRecords(dir, i, e);
    } else {
      AppendedRecords(dir, Written(dir, i, e), e);
    }
    RecordsLength(dir);
  }

  lemma RecordsLength(dir: seq<Entry>)
    ensures |Records(dir)| == Used(dir)
  {
  }

  lemma ReplacedRecords(dir: seq<Entry>, i: nat, e: Entry)
    requires i < Used(dir) < |dir| && !IsEnd(e)
    ensures |Records(dir)| == Used(dir) && Records(dir[i := e]) == Records(dir)[i := e]
  {
    hide Used, IsEnd;
    UsedIs(dir[i := e], Used(dir));
  }

  lemma AppendedRecords(dir: seq<Entry>, d: seq<Entry>, e: Entry)
    requires Used(dir) < |dir| == |d| && !IsEnd(e) && d[Used(dir)] == e && d[..Used(dir)] == dir[..Used(dir)]
    requires Used(dir) + 1 < |d| ==> IsEnd(d[Used(dir) + 1])
    ensures Records(d) == Records(dir) + [e]
  {
    hide Used, IsEnd;
    var n := Used(dir);
    forall k | 0 <= k < n
      ensures !IsEnd(d[k])
    {
      assert d[k] == d[..n][k] == dir[..n][k] == dir[k];
    }
    UsedIs(d, n + 1);
    assert d[..n + 1] == d[..n] + [d[n]];
  }

  lemma WrittenCases(dir: seq<Entry>, i: nat, e: Entry)
    requires i <= Used(dir) < |dir| && IsFile(e)
    ensures var n, d := Used(dir), Written(dir, i, e);
            && (i < n ==> d == dir[i := e] && !IsEnd(e))
            && (i == n ==> d[n] == e && !IsEnd(e) && d[..n] == dir[..n] && (n + 1 < |d| ==> IsEnd(d[n + 1])))
  {
    hide Used;
  }

  /** A directory that gets one more file stays sound exactly when the file was put where it fits. */
  lemma NewFileIsSound(r: seq<Entry>, r': seq<Entry>, i: nat, e: Entry, blocks: nat)
    requires Sound(r, blocks) && i <= |r| && (i < |r| ==> IsDeleted(r[i]))
    requires r' == if i < |r| then r[i := e] else r + [e]
    requires IsFile(e) && e.reserved >= 1
    ensures Sound(r', blocks) <==> Fits(r, blocks, e.start, e.reserved)
  {
    assert r'[i] == e;
    assert forall k :: 0 <= k < |r| && k != i ==> r'[k] == r[k];
    if Sound(r', blocks) {
      forall x | x in r && IsFile(x)
        ensures Apart(e, x)
      {
        var k :| 0 <= k < |r| && r[k] == x;
        assert r'[k] == x;
      }
    }
    if Fits(r, blocks, e.start, e.reserved) {
      forall j, k | 0 <= j < k < |r'|
        ensures Apart(r'[j], r'[k])
      {
        if j == i && IsFile(r'[k]) { assert r[k] in r; }
        if k == i && IsFile(r'[j]) { assert r[j] in r; }
      }
      forall k | 0 <= k < |r'|
        ensures Placed(r'[k], blocks)
      {
      }
    }
  }

  lemma SearchableRecords(dir: seq<Entry>, blocks: nat)
    requires Directory(dir, blocks) && Used(dir) < |dir|
    ensures Counted(dir) == Used(dir) && Searchable(Sorted(Records(dir)), blocks)
    ensures forall e :: e in Sorted(Records(dir)) <==> e in Records(dir)
  {
    hide Used, FilesFirst, Sorted;
    var r := Records(dir);
    SortedIsOrdered(r);
    SortedIsSound(r, blocks);
    SortedMembers(r);
  }

  lemma FitsSorted(r: seq<Entry>, s: seq<Entry>, blocks: nat, b: nat)
    requires forall e :: e in s <==> e in r
    ensures forall p :: Fits(s, blocks, p, b) <==> Fits(r, blocks, p, b)
    ensures StaleRoom(s, blocks, b) <==> StaleRoom(r, blocks, b)
  {
  }

  /** What create decides, said about places on the disk. */
  lemma StartIsLowest(dir: seq<Entry>, maxsize: nat, blocks: nat)
    requires Directory(dir, blocks) && Used(dir) < |dir| && maxsize >= 1
    ensures var r, b, start := Records(dir), BlocksFor(maxsize), Start(dir, maxsize, blocks);
            && b >= 1
            && if exists p :: Fits(r, blocks, p, b)
               then start != 0 && Fits(r, blocks, start, b) && forall p :: Fits(r, blocks, p, b) ==> start <= p
               else (start != 0 <==> StaleRoom(r, blocks, b)) && (start != 0 ==> 1 <= start && start + b <= blocks - 1)
  {
    hide Used, Sorted, Search, FilesFirst, Sound;
    var r, b := Records(dir), BlocksFor(maxsize);
    SearchableRecords(dir, blocks);
    var s := Sorted(r);
    FitsSorted(r, s, blocks, b);
    assert Scanned(s, 0, 1, blocks, b);
    SearchIsLowest(s, 0, 1, blocks, b);
  }

  /**
   Contiguous placement: when the files leave a gap that is large enough, create puts the new file into
   the lowest one; when they leave none and no deleted record interferes, it changes nothing. All other
   files keep their blocks.
   */
  lemma CreateIsLowest(dir: seq<Entry>, name: string, maxsize: nat, blocks: nat)
    requires Directory(dir, blocks) && Used(dir) < |dir| && maxsize >= 1
    requires IsName(name) && !Present(dir, name)
    ensures var r, b, d := Records(dir), BlocksFor(maxsize), Created(dir, name, maxsize, blocks);
            var i, start := FirstFree(dir), Start(dir, maxsize, blocks);
            if exists p :: Fits(r, blocks, p, b)
            then
              && Fits(r, blocks, start, b) && (forall p :: Fits(r, blocks, p, b) ==> start <= p)
              && Records(d) == (if i < |r| then r[i := Entry(name, start, b)] else r + [Entry(name, start, b)])
              && Directory(d, blocks)
            else !StaleRoom(r, blocks, b) ==> d == dir
  {
    hide Used, Search, FirstFree, Sound, Start, Written;
    StartIsLowest(dir, maxsize, blocks);
    if Start(dir, maxsize, blocks) != 0 { CreatedRecords(dir, name, maxsize, blocks); }
  }

  lemma CreatedRecords(dir: seq<Entry>, name: string, maxsize: nat, blocks: nat)
    requires Directory(dir, blocks) && Used(dir) < |dir| && maxsize >= 1 && Start(dir, maxsize, blocks) != 0
    requires IsName(name) && !Present(dir, name)
    ensures var r, d := Records(dir), Created(dir, name, maxsize, blocks);
            var i, e := FirstFree(dir), Entry(name, Start(dir, maxsize, blocks), BlocksFor(maxsize));
            && e.reserved >= 1 && i <= |r|
            && Records(d) == (if i < |r| then r[i := e] else r + [e])
            && (Directory(d, blocks) <==> Fits(r, blocks, e.start, e.reserved))
  {
    hide Used, Search, FirstFree, Sound, Start, Written;
    var r, d := Records(dir), Created(dir, name, maxsize, blocks);
    var i, e := FirstFree(dir), Entry(name, Start(dir, maxsize, blocks), BlocksFor(maxsize));
    WrittenRecords(dir, e);
    NewFileIsSound(r, Records(d), i, e, blocks);
    if Fits(r, blocks, e.start, e.reserved) {
      forall x | x in Records(d)
        ensures 1 <= EndOf(x) <= blocks - 1
      {
        if x != e { assert x in r; }
      }
    }
  }

  /** With a 0x00 record to find: some place fits, or no deleted record has room behind its old end. */
  lemma CreateIsSoundBeforeEnd(dir: seq<Entry>, name: string, maxsize: nat, blocks: nat)
    requires Directory(dir, blocks) && Used(dir) < |dir| && maxsize >= 1
    requires IsName(name) && !Present(dir, name)
    ensures var r, b, d := Records(dir), BlocksFor(maxsize), Created(dir, name, maxsize, blocks);
            && KeepsFiles(r, Records(d))
            && (Directory(d, blocks) <==> (exists p :: Fits(r, blocks, p, b)) || !StaleRoom(r, blocks, b))
  {
    hide Used, Search, FirstFree, Sound, Start, Written, KeepsFiles;
    NothingIsLost(Records(dir));
    StartIsLowest(dir, maxsize, blocks);
    if Start(dir, maxsize, blocks) != 0 {
      CreatedRecords(dir, name, maxsize, blocks);
      FreeIsNoFile(dir, Entry(name, Start(dir, maxsize, blocks), BlocksFor(maxsize)));
    }
  }

  lemma FreeIsNoFile(dir: seq<Entry>, e: Entry)
    ensures var i, r := FirstFree(dir), Records(dir);
            i <= |r| && KeepsFiles(r, if i < |r| then r[i := e] else r + [e])
  {
    hide Used, FirstFree;
    RecordsLength(dir);
    var i, r := FirstFree(dir), Records(dir);
    assert i < |r| ==> r[i] == dir[i];
    var r' := if i < |r| then r[i := e] else r + [e];
    forall x | x in r && IsFile(x)
      ensures x in r'
    {
      var k :| 0 <= k < |r| && r[k] == x;
      assert r'[k] == x;
    }
  }

  /** No file is lost. */
  ghost predicate KeepsFiles(r: seq<Entry>, r': seq<Entry>) {
    forall x :: x in r && IsFile(x) ==> x in r'
  }

  /** A directory without a 0x00 record counts as empty: the gap search sees no file and starts at block 1. */
  lemma FullStart(dir: seq<Entry>, maxsize: nat, blocks: nat)
    requires Directory(dir, blocks) && Used(dir) == |dir|
    ensures Start(dir, maxsize, blocks) == if BlocksFor(maxsize) <= blocks - 2 then 1 else 0
  {
    hide Used, Search, Insert, Sound;
    var none := dir[..Counted(dir)];
    assert none == [] && Sorted(none) == [];
    SearchNothing(Sorted(none), 0, 1, blocks, BlocksFor(maxsize));
  }

  lemma SearchNothing(s: seq<Entry>, t: nat, prev: nat, blocks: nat, b: nat)
    requires s == [] && t == 0 && prev < blocks < WORD
    ensures Search(s, t, prev, blocks, b) == if b <= blocks - 1 - prev then prev else 0
  {
  }

  /** Written over its first record, such a directory ends behind it. */
  lemma FullWritten(dir: seq<Entry>, e: Entry)
    requires |dir| == RECORDS && Used(dir) == |dir| && FirstFree(dir) < |dir| && IsFile(e)
    ensures var i := FirstFree(dir);
            Records(Written(dir, i, e)) == if i == 0 then [e] else Records(dir)[i := e]
  {
    hide Used, FirstFree;
    var i := FirstFree(dir);
    var d := Written(dir, i, e);
    if i == 0 {
      UsedIs(d, 1);
      assert d[..1] == [d[0]];
    } else {
      UsedIs(d, |d|);
    }
  }

  /**
   With all records used up, create refuses if none of them is deleted or the disk is too small. Otherwise
   it puts the file at block 1, and if the very first record is the deleted one it drops all others.
   */
  lemma CreateInFullDirectory(dir: seq<Entry>, name: string, maxsize: nat, blocks: nat)
    requires Directory(dir, blocks) && Used(dir) == |dir| && maxsize >= 1
    requires IsName(name) && !Present(dir, name)
    ensures var r, b, d := Records(dir), BlocksFor(maxsize), Created(dir, name, maxsize, blocks);
            var i, e := FirstFree(dir), Entry(name, 1, b);
            if i == |dir| || b > blocks - 2 then d == dir
            else
              && Records(d) == (if i == 0 then [e] else r[i := e])
              && (Directory(d, blocks) <==> i == 0 || Fits(r, blocks, 1, b))
              && (KeepsFiles(r, Records(d)) <==> i > 0 || forall x :: x in r ==> !IsFile(x))
  {
    hide Used, FirstFree, Sound, Start, Written, Fits, KeepsFiles;
    var r, b, d := Records(dir), BlocksFor(maxsize), Created(dir, name, maxsize, blocks);
    var i, e := FirstFree(dir), Entry(name, 1, b);
    FullStart(dir, maxsize, blocks);
    RecordsLength(dir);
    if i < |dir| && b <= blocks - 2 {
      FullWritten(dir, e);
      FreeIsNoFile(dir, e);
      if i == 0 {
        LoneFile(e, blocks);
        FirstIsNoFile(dir, e);
      } else {
        NewFileIsSound(r, Records(d), i, e, blocks);
        if Fits(r, blocks, e.start, e.reserved) { EndsStay(r, i, e, blocks); }
      }
    }
  }

  lemma EndsStay(r: seq<Entry>, i: nat, e: Entry, blocks: nat)
    requires i < |r| && (forall x :: x in r ==> 1 <= EndOf(x) <= blocks - 1) && Fits(r, blocks, e.start, e.reserved)
    ensures forall x :: x in r[i := e] ==> 1 <= EndOf(x) <= blocks - 1
  {
    forall x | x in r[i := e]
      ensures x == e || x in r
    {
    }
  }

  lemma FirstIsNoFile(dir: seq<Entry>, e: Entry)
    requires 0 < |dir| == Used(dir) && FirstFree(dir) == 0 && IsFile(e) && forall x :: x in Records(dir) && IsFile(x) ==> x.name != e.name
    ensures KeepsFiles(Records(dir), [e]) <==> forall x :: x in Records(dir) ==> !IsFile(x)
  {
    hide Used, FirstFree;
  }

  lemma LoneFile(e: Entry, blocks: nat)
    requires IsFile(e) && e.start == 1 && 1 <= e.reserved <= blocks - 2
    ensures Sound([e], blocks) && EndOf(e) <= blocks - 1
  {
  }

  /**
   What a caller of create has to make sure of, for a file of b blocks. With a 0x00 record in the
   directory: some place fits or no deleted record has room behind its old end. Without one: no record is
   deleted, or the disk is too small, or block 1 fits, with no file lost behind a deleted first record.
   */
  ghost predicate Safe(dir: seq<Entry>, name: string, b: nat, blocks: nat) {
    var r := Records(dir);
    || Present(dir, name)
    || if Used(dir) < |dir| then (exists p :: Fits(r, blocks, p, b)) || !StaleRoom(r, blocks, b)
       else
         || FirstFree(dir) == |dir| || b > blocks - 2
         || if FirstFree(dir) == 0 then forall x :: x in r ==> !IsFile(x) else Fits(r, blocks, 1, b)
  }

  /**
   create keeps all files, and keeps them apart, exactly under that condition; a file that is there
   already is left alone.
   */
  lemma CreateIsSoundIff(dir: seq<Entry>, name: string, maxsize: nat, blocks: nat)
    requires Directory(dir, blocks) && maxsize >= 1 && IsName(name)
    ensures var d := Created(dir, name, maxsize, blocks);
            && (Directory(d, blocks) && KeepsFiles(Records(dir), Records(d)) <==> Safe(dir, name, BlocksFor(maxsize), blocks))
            && (Present(dir, name) ==> d == dir)
  {
    hide Used, Search, FirstFree, Sound, Start, Written, KeepsFiles;
    NothingIsLost(Records(dir));
    if !Present(dir, name) {
      if Used(dir) < |dir| {
        CreateIsSoundBeforeEnd(dir, name, maxsize, blocks);
      } else {
        CreateInFullDirectory(dir, name, maxsize, blocks);
      }
    }
  }

  lemma NothingIsLost(r: seq<Entry>)
    ensures KeepsFiles(r, r)
  {
  }

  /** delete marks the record of the file. */
  function Deleted(dir: seq<Entry>, i: nat): (d: seq<Entry>)
    requires i < |dir| && dir[i].name != ""
    ensures |d| == |dir|
  {
    dir[i := dir[i].(name := [UNUSED] + dir[i].name[1..])]
  }

  lemma DeleteKeeps(dir: seq<Entry>, i: nat, blocks: nat)
    requires Directory(dir, blocks) && i < Used(dir)
    ensures var d := Deleted(dir, i);
            && Directory(d, blocks) && Used(d) == Used(dir) && !IsFile(d[i])
            && forall p, b: nat :: Fits(Records(dir), blocks, p, b) ==> Fits(Records(d), blocks, p, b)
  {
    var d := Deleted(dir, i);
    hide Used;
    UsedIs(d, Used(dir));
    var r, r' := Records(dir), Records(d);
    assert r' == r[i := d[i]];
    assert forall k :: 0 <= k < |r| && k != i ==> r'[k] == r[k];
    assert r[i] in r;
    forall x | x in r'
      ensures 1 <= EndOf(x) <= blocks - 1 && (IsFile(x) ==> x in r)
    {
      var k :| 0 <= k < |r'| && r'[k] == x;
      if k != i { assert r[k] in r; }
    }
  }

  // ------------------------------------------------------------- the runs

  datatype Call = Create(name: string, maxsize: nat) | Delete(slot: nat)

  /** Calls that bmfs makes: sizes of at least 1, delete of a file that is there. */
  ghost predicate Allowed(dir: seq<Entry>, c: Call) {
    match c
    case Create(name, maxsize) => IsName(name) && maxsize >= 1
    case Delete(slot) => slot < Used(dir) && IsFile(dir[slot])
  }

  /** The guard of a create that may be let through. */
  ghost predicate Guarded(dir: seq<Entry>, blocks: nat, c: Call) {
    match c
    case Create(name, maxsize) => Safe(dir, name, BlocksFor(maxsize), blocks)
    case Delete(slot) => true
  }

  ghost function After(dir: seq<Entry>, blocks: nat, c: Call): seq<Entry>
    requires Allowed(dir, c)
  {
    match c
    case Create(name, maxsize) => Created(dir, name, maxsize, blocks)
    case Delete(slot) => Deleted(dir, slot)
  }

  ghost predicate Runs(dir: seq<Entry>, blocks: nat, cs: seq<Call>, d: seq<Entry>)
    decreases cs
  {
    if cs == [] then dir == d
    else Allowed(dir, cs[0]) && Guarded(dir, blocks, cs[0]) && Runs(After(dir, blocks, cs[0]), blocks, cs[1..], d)
  }

  /** In every guarded run no two files ever share a block, nor touch the reserved ones. */
  lemma {:induction false} RunsKeep(dir: seq<Entry>, blocks: nat, cs: seq<Call>, d: seq<Entry>)
    requires Directory(dir, blocks) && Runs(dir, blocks, cs, d)
    ensures Directory(d, blocks)
    decreases cs
  {
    hide Used, Search, FirstFree, Sound, Start, Written, Deleted;
    if cs != [] {
      match cs[0] {
        case Create(name, maxsize) =>
          if !Present(dir, name) { CreateIsSoundIff(dir, name, maxsize, blocks); }
        case Delete(slot) => DeleteKeeps(dir, slot, blocks);
      }
      RunsKeep(After(dir, blocks, cs[0]), blocks, cs[1..], d);
    }
  }

  /** Some delete of the run takes this file. */
  ghost predicate Deletes(dir: seq<Entry>, blocks: nat, cs: seq<Call>, x: Entry)
    decreases cs
  {
    && cs != [] && Allowed(dir, cs[0])
    && ((cs[0].Delete? && dir[cs[0].slot] == x) || Deletes(After(dir, blocks, cs[0]), blocks, cs[1..], x))
  }

  /** And no file is lost but by a delete of it. */
  lemma {:induction false} FilesStay(dir: seq<Entry>, blocks: nat, cs: seq<Call>, d: seq<Entry>, x: Entry)
    requires Directory(dir, blocks) && Runs(dir, blocks, cs, d) && x in Records(dir) && IsFile(x)
    ensures x in Records(d) || Deletes(dir, blocks, cs, x)
    decreases cs
  {
    hide Used, Search, FirstFree, Sound, Start, Written, Deleted, Safe;
    if cs != [] {
      match cs[0] {
        case Create(name, maxsize) => CreateIsSoundIff(dir, name, maxsize, blocks);
        case Delete(slot) =>
          DeleteKeeps(dir, slot, blocks);
          OthersStay(dir, slot, x);
      }
      if !(cs[0].Delete? && dir[cs[0].slot] == x) {
        FilesStay(After(dir, blocks, cs[0]), blocks, cs[1..], d, x);
      }
    }
  }

  lemma OthersStay(dir: seq<Entry>, i: nat, x: Entry)
    requires i < Used(dir) && x in Records(dir)
    ensures x == dir[i] || x in Records(Deleted(dir, i))
  {
    hide Used;
    UsedIs(Deleted(dir, i), Used(dir));
    var k :| 0 <= k < Used(dir) && dir[k] == x;
    if k != i { assert Records(Deleted(dir, i))[k] == x; }
  }

  // ------------------------------------------- a run that ends in an overlap

  /** A directory with these records. */
  ghost predicate Lists(dir: seq<Entry>, r: seq<Entry>, blocks: nat) {
    Directory(dir, blocks) && Records(dir) == r
  }

  /** When `start` is the lowest place that fits, create puts the file there, into the first free record i. */
  lemma CreateAt(dir: seq<Entry>, r: seq<Entry>, blocks: nat, i: nat, e: Entry, maxsize: nat)
    requires Lists(dir, r, blocks) && maxsize >= 1 && BlocksFor(maxsize) == e.reserved && |r| < RECORDS
    requires IsName(e.name) && forall x :: x in r && IsFile(x) ==> x.name != e.name
    requires i <= |r| && (forall j :: 0 <= j < i ==> IsFile(r[j])) && (i < |r| ==> IsDeleted(r[i]))
    requires Fits(r, blocks, e.start, e.reserved) && forall p :: Fits(r, blocks, p, e.reserved) ==> e.start <= p
    ensures var c := Create(e.name, maxsize);
            && Allowed(dir, c) && Guarded(dir, blocks, c)
            && Lists(After(dir, blocks, c), if i < |r| then r[i := e] else r + [e], blocks)
  {
    hide Used, FirstFree, Fits, Start, Written, Created, Sound;
    RecordsLength(dir);
    FirstFreeIs(dir, r, i);
    assert !Present(dir, e.name);
    CreateIsLowest(dir, e.name, maxsize, blocks);
    assert Start(dir, maxsize, blocks) == e.start;
  }

  lemma FirstFreeIs(dir: seq<Entry>, r: seq<Entry>, i: nat)
    requires r == Records(dir) && i <= |r|
    requires (forall j :: 0 <= j < i ==> IsFile(r[j])) && (i < |r| ==> IsDeleted(r[i]))
    ensures FirstFree(dir) == i
  {
    hide Used;
    var f := FirstFree(dir);
    assert f < i ==> IsFile(r[f]);
    assert i < f ==> IsFile(dir[i]);
  }

  lemma DeleteAt(dir: seq<Entry>, r: seq<Entry>, blocks: nat, i: nat)
    requires Lists(dir, r, blocks) && i < |r| && IsFile(r[i])
    ensures var c := Delete(i);
            && Allowed(dir, c) && Guarded(dir, blocks, c)
            && Lists(After(dir, blocks, c), r[i := r[i].(name := [UNUSED] + r[i].name[1..])], blocks)
  {
    hide Used, Sound;
    RecordsLength(dir);
    DeleteKeeps(dir, i, blocks);
    assert Records(Deleted(dir, i)) == r[i := r[i].(name := [UNUSED] + r[i].name[1..])];
  }

  lemma RunsOn(dir: seq<Entry>, blocks: nat, c: Call, cs: seq<Call>, d: seq<Entry>)
    requires Allowed(dir, c) && Guarded(dir, blocks, c) && Runs(After(dir, blocks, c), blocks, cs, d)
    ensures Runs(dir, blocks, [c] + cs, d)
  {
    assert ([c] + cs)[1..] == cs;
  }

  /** Six blocks, four of them to give away: two files of a block each are deleted behind a third one. */
  lemma OverlapBegins(dir: seq<Entry>, blocks: nat, p: string, q: string, b: string) returns (d: seq<Entry>, cs: seq<Call>)
    requires Lists(dir, [], blocks) && blocks == 6
    requires IsName(p) && IsName(q) && IsName(b) && p != q && p != b && q != b
    ensures cs == [Create(p, 2), Create(q, 2), Create(b, 2), Delete(0), Delete(1)] && Runs(dir, blocks, cs, d)
    ensures Lists(d, [Entry([UNUSED] + p[1..], 1, 1), Entry([UNUSED] + q[1..], 2, 1), Entry(b, 3, 1)], blocks)
  {
    hide Runs, Allowed, Guarded, After, Lists;
    var e0, e1, e2 := Entry(p, 1, 1), Entry(q, 2, 1), Entry(b, 3, 1);
    CreateAt(dir, [], blocks, 0, e0, 2);
    var d1 := After(dir, blocks, Create(p, 2));
    assert [] + [e0] == [e0];
    CreateAt(d1, [e0], blocks, 1, e1, 2);
    var d2 := After(d1, blocks, Create(q, 2));
    assert [e0] + [e1] == [e0, e1] && e0 in [e0, e1] && e1 in [e0, e1];
    CreateAt(d2, [e0, e1], blocks, 2, e2, 2);
    var d3 := After(d2, blocks, Create(b, 2));
    assert [e0, e1] + [e2] == [e0, e1, e2];
    DeleteAt(d3, [e0, e1, e2], blocks, 0);
    var d4 := After(d3, blocks, Delete(0));
    var f0, f1 := e0.(name := [UNUSED] + p[1..]), e1.(name := [UNUSED] + q[1..]);
    assert [e0, e1, e2][0 := f0] == [f0, e1, e2];
    DeleteAt(d4, [f0, e1, e2], blocks, 1);
    d := After(d4, blocks, Delete(1));
    assert [f0, e1, e2][1 := f1] == [f0, f1, e2];
    RunsEnd(d, blocks);
    RunsOn(d4, blocks, Delete(1), [], d);
    assert [Delete(1)] + [] == [Delete(1)];
    RunsOn(d3, blocks, Delete(0), [Delete(1)], d);
    assert [Delete(0)] + [Delete(1)] == [Delete(0), Delete(1)];
    RunsOn(d2, blocks, Create(b, 2), [Delete(0), Delete(1)], d);
    assert [Create(b, 2)] + [Delete(0), Delete(1)] == [Create(b, 2), Delete(0), Delete(1)];
    RunsOn(d1, blocks, Create(q, 2), [Create(b, 2), Delete(0), Delete(1)], d);
    RunsOn(dir, blocks, Create(p, 2), [Create(q, 2), Create(b, 2), Delete(0), Delete(1)], d);
    cs := [Create(p, 2)] + [Create(q, 2), Create(b, 2), Delete(0), Delete(1)];
  }

  lemma RunsEnd(dir: seq<Entry>, blocks: nat)
    ensures Runs(dir, blocks, [], dir)
  {
  }

  lemma {:induction false} RunsJoin(dir: seq<Entry>, blocks: nat, cs: seq<Call>, mid: seq<Entry>, c: Call)
    requires Runs(dir, blocks, cs, mid) && Allowed(mid, c) && Guarded(mid, blocks, c)
    ensures Runs(dir, blocks, cs + [c], After(mid, blocks, c))
    decreases cs
  {
    hide Allowed, Guarded, After;
    if cs == [] {
      RunsEnd(After(mid, blocks, c), blocks);
      RunsOn(mid, blocks, c, [], After(mid, blocks, c));
      assert [] + [c] == [c] + [];
    } else {
      RunsJoin(After(dir, blocks, cs[0]), blocks, cs[1..], mid, c);
      RunsOn(dir, blocks, cs[0], cs[1..] + [c], After(mid, blocks, c));
      assert cs + [c] == [cs[0]] + (cs[1..] + [c]);
    }
  }

  /**
   Such a run from the empty directory: a file of two blocks takes the place of two deleted ones, one record
   of which stays. The next file of two blocks is put behind that record, on a block of b.
   */
  lemma StaleRecordOverlaps(dir: seq<Entry>, blocks: nat, p: string, q: string, b: string, a: string, c: string)
      returns (d: seq<Entry>)
    requires |dir| == RECORDS && (forall i :: 0 <= i < RECORDS ==> dir[i] == Entry("", 0, 0)) && blocks == 6
    requires IsName(p) && IsName(q) && IsName(b) && IsName(a) && IsName(c)
    requires p != q && p != b && q != b && a != b && c != a && c != b
    ensures Runs(dir, blocks, [Create(p, 2), Create(q, 2), Create(b, 2), Delete(0), Delete(1)] + [Create(a, 4)], d)
    ensures Directory(d, blocks) && Used(d) < |d| && !Present(d, c)
    ensures !Directory(Created(d, c, 4, blocks), blocks)
  {
    hide Used, Runs, Created, FirstFree, Allowed, Guarded, After, Fits, Lists, StaleRoom, Directory, Present;
    EmptyLists(dir, blocks);
    var mid, cs := OverlapBegins(dir, blocks, p, q, b);
    OverlapGoesOn(mid, blocks, p, q, b, a);
    d := After(mid, blocks, Create(a, 4));
    RunsJoin(dir, blocks, cs, mid, Create(a, 4));
    OverlapEnds(d, blocks, q, b, a, c);
  }

  lemma OverlapGoesOn(mid: seq<Entry>, blocks: nat, p: string, q: string, b: string, a: string)
    requires blocks == 6 && p != "" && q != "" && IsName(b) && IsName(a) && a != b
    requires Lists(mid, [Entry([UNUSED] + p[1..], 1, 1), Entry([UNUSED] + q[1..], 2, 1), Entry(b, 3, 1)], blocks)
    ensures var next := Create(a, 4);
            && Allowed(mid, next) && Guarded(mid, blocks, next)
            && Lists(After(mid, blocks, next), [Entry(a, 1, 2), Entry([UNUSED] + q[1..], 2, 1), Entry(b, 3, 1)], blocks)
  {
    hide Lists, Allowed, Guarded, After;
    var f0, f1, e2 := Entry([UNUSED] + p[1..], 1, 1), Entry([UNUSED] + q[1..], 2, 1), Entry(b, 3, 1);
    var e := Entry(a, 1, 2);
    CreateAt(mid, [f0, f1, e2], blocks, 0, e, 4);
    assert [f0, f1, e2][0 := e] == [e, f1, e2];
  }

  lemma OverlapEnds(d: seq<Entry>, blocks: nat, q: string, b: string, a: string, c: string)
    requires blocks == 6 && q != "" && IsName(a) && IsName(b) && IsName(c) && c != a && c != b
    requires Lists(d, [Entry(a, 1, 2), Entry([UNUSED] + q[1..], 2, 1), Entry(b, 3, 1)], blocks)
    ensures Directory(d, blocks) && Used(d) < |d| && !Present(d, c)
    ensures !Directory(Created(d, c, 4, blocks), blocks)
  {
    hide Used, Sound, Created;
    var e, f1, e2 := Entry(a, 1, 2), Entry([UNUSED] + q[1..], 2, 1), Entry(b, 3, 1);
    var r := [e, f1, e2];
    RecordsLength(d);
    assert e in r && f1 in r && e2 in r;
    assert IsDeleted(f1) && EndOf(f1) + 2 <= 5;
    assert StaleRoom(r, blocks, 2);
    assert forall p :: !Fits(r, blocks, p, 2);
    CreateIsSoundBeforeEnd(d, c, 4, blocks);
  }

  lemma EmptyLists(dir: seq<Entry>, blocks: nat)
    requires |dir| == RECORDS && (forall i :: 0 <= i < RECORDS ==> dir[i] == Entry("", 0, 0)) && 3 <= blocks < WORD
    ensures Lists(dir, [], blocks)
  {
    hide Used;
    UsedIs(dir, 0);
  }

  // ----------------------------------------- a run that loses all files but one

  /** The files of a full disk: one block each, one behind the other. */
  function Row(names: seq<string>, n: nat): (r: seq<Entry>)
    requires n <= |names|
    ensures |r| == n && forall i :: 0 <= i < n ==> r[i] == Entry(names[i], 1 + i, 1)
  {
    seq(n, i requires 0 <= i < n => Entry(names[i], 1 + i, 1))
  }

  ghost predicate AllNames(names: seq<string>) {
    && |names| == RECORDS && (forall i :: 0 <= i < RECORDS ==> IsName(names[i]))
    && forall i, j :: 0 <= i < j < RECORDS ==> names[i] != names[j]
  }

  function Creates(names: seq<string>, n: nat): (cs: seq<Call>)
    requires n <= |names|
    ensures |cs| == n
  {
    if n == 0 then [] else Creates(names, n - 1) + [Create(names[n - 1], 2)]
  }

  lemma {:induction false} RowIsCreated(dir: seq<Entry>, blocks: nat, names: seq<string>, n: nat) returns (d: seq<Entry>)
    requires Lists(dir, [], blocks) && AllNames(names) && blocks >= RECORDS + 2 && n <= RECORDS
    ensures Runs(dir, blocks, Creates(names, n), d) && Lists(d, Row(names, n), blocks)
  {
    hide Runs, Lists, Allowed, Guarded, After, Fits, IsName;
    if n == 0 {
      d := dir;
      RunsEnd(dir, blocks);
      assert Row(names, 0) == [];
    } else {
      var mid := RowIsCreated(dir, blocks, names, n - 1);
      var r, e := Row(names, n - 1), Entry(names[n - 1], n, 1);
      RowFits(names, n - 1, blocks);
      RowIsFiles(names, n - 1);
      CreateAt(mid, r, blocks, n - 1, e, 2);
      d := After(mid, blocks, Create(names[n - 1], 2));
      RunsJoin(dir, blocks, Creates(names, n - 1), mid, Create(names[n - 1], 2));
      assert r + [e] == Row(names, n);
    }
  }

  lemma RowIsFiles(names: seq<string>, n: nat)
    requires AllNames(names) && n < RECORDS
    ensures forall j :: 0 <= j < n ==> IsFile(Row(names, n)[j])
    ensures IsName(names[n]) && forall x :: x in Row(names, n) ==> x.name != names[n]
  {
  }

  lemma RowFits(names: seq<string>, n: nat, blocks: nat)
    requires AllNames(names) && n < RECORDS && blocks >= RECORDS + 2
    ensures Fits(Row(names, n), blocks, 1 + n, 1) && forall p :: Fits(Row(names, n), blocks, p, 1) ==> 1 + n <= p
  {
    var r := Row(names, n);
    forall p | Fits(r, blocks, p, 1)
      ensures 1 + n <= p
    {
      if p < 1 + n { assert r[p - 1] in r && IsFile(r[p - 1]); }
    }
  }

  /**
   A run after which create drops all files but the new one: the directory is full, the first file is
   deleted and its record is used again.
   */
  lemma FirstRecordDropsTheOthers(dir: seq<Entry>, blocks: nat, names: seq<string>, c: string) returns (d: seq<Entry>)
    requires |dir| == RECORDS && (forall i :: 0 <= i < RECORDS ==> dir[i] == Entry("", 0, 0))
    requires AllNames(names) && IsName(c) && c !in names && RECORDS + 2 <= blocks < WORD
    ensures Runs(dir, blocks, Creates(names, RECORDS) + [Delete(0)], d)
    ensures Directory(d, blocks) && |Records(d)| == RECORDS && Records(d)[1..] == Row(names, RECORDS)[1..]
    ensures Records(Created(d, c, 2, blocks)) == [Entry(c, 1, 1)]
  {
    hide Used, Runs, Lists, Allowed, Guarded, After, Created, Sound, FirstFree;
    EmptyLists(dir, blocks);
    var mid := RowIsCreated(dir, blocks, names, RECORDS);
    var r := Row(names, RECORDS);
    assert IsName(names[0]) && IsFile(r[0]);
    DeleteAt(mid, r, blocks, 0);
    d := After(mid, blocks, Delete(0));
    RunsJoin(dir, blocks, Creates(names, RECORDS), mid, Delete(0));
    DropsTheOthers(d, r[0 := r[0].(name := [UNUSED] + r[0].name[1..])], blocks, names, c);
  }

  lemma DropsTheOthers(d: seq<Entry>, r: seq<Entry>, blocks: nat, names: seq<string>, c: string)
    requires AllNames(names) && IsName(c) && c !in names && RECORDS + 2 <= blocks
    requires Lists(d, r, blocks) && |r| == RECORDS && IsDeleted(r[0]) && r[1..] == Row(names, RECORDS)[1..]
    ensures Directory(d, blocks) && Records(d) == r && Records(Created(d, c, 2, blocks)) == [Entry(c, 1, 1)]
  {
    hide Used, Created, Sound, FirstFree;
    RecordsLength(d);
    FirstFreeIs(d, r, 0);
    forall x | x in r && IsFile(x)
      ensures x.name != c
    {
      var i :| 0 <= i < |r| && r[i] == x;
      assert i > 0 && r[i] == r[1..][i - 1] == Row(names, RECORDS)[i];
      assert names[i] in names;
    }
    CreateInFullDirectory(d, c, 2, blocks);
  }

  // ------------------------------------------------------------ the program

  class Disk {
    const numBlocks: nat
    const directory: array<Entry>

    ghost predicate Valid()
      reads directory
    {
      directory.Length == RECORDS
    }

    /** format: an empty directory. */
    constructor (numBlocks: nat)
      requires 3 <= numBlocks < WORD
      ensures Valid() && this.numBlocks == numBlocks && fresh(directory)
      ensures Directory(directory[..], numBlocks) && Used(directory[..]) == 0
    {
      this.numBlocks := numBlocks;
      directory := new Entry[RECORDS](_ => Entry("", 0, 0));
    }

    /** The first file of that name in front of the 0x00 record. */
    method FindFile(filename: string) returns (found: bool, slot: nat)
      requires Valid()
      ensures found <==> Present(directory[..], filename)
      ensures found ==> slot < Used(directory[..]) && IsFile(directory[slot]) && directory[slot].name == filename
    {
      found, slot := false, 0;
      ghost var dir := directory[..];
      var tint := 0;
      while tint < RECORDS && !found
        invariant 0 <= tint && dir == directory[..]
        invariant tint <= RECORDS ==> tint <= Used(dir) || Used(dir) < RECORDS
        invariant !found ==> forall i :: 0 <= i < tint && i < Used(dir) ==> !(IsFile(dir[i]) && dir[i].name == filename)
        invariant found ==> slot < Used(dir) && IsFile(dir[slot]) && dir[slot].name == filename
        invariant !found && tint < RECORDS ==> tint <= Used(dir)
        decreases !found, RECORDS - tint
      {
        var entry := directory[tint];
        if IsEnd(entry) {
          tint := RECORDS;
        } else if !IsDeleted(entry) && filename == entry.name {
          found, slot := true, tint;
        } else {
          tint := tint + 1;
        }
      }
      if found {
        assert dir[slot] in Records(dir);
      }
    }

    /** The first pass of create: how many records count, and the first free one or -1. */
    method ScanDirectory() returns (numUsedEntries: nat, firstFreeEntry: int)
      requires Valid()
      ensures var dir := directory[..];
              && numUsedEntries == Counted(dir)
              && firstFreeEntry == if FirstFree(dir) < |dir| then FirstFree(dir) else -1
    {
      hide Used, FirstFree;
      ghost var dir := directory[..];
      numUsedEntries, firstFreeEntry := 0, -1;
      var tint := 0;
      while tint < RECORDS
        invariant 0 <= tint <= RECORDS && numUsedEntries == 0
        invariant tint <= Used(dir)
        invariant firstFreeEntry == if FirstFree(dir) < tint then FirstFree(dir) else -1
      {
        if IsEnd(directory[tint]) {
          numUsedEntries := tint;
          if firstFreeEntry == -1 {
            firstFreeEntry := tint;
          }
          return;
        } else if IsDeleted(directory[tint]) && firstFreeEntry == -1 {
          firstFreeEntry := tint;
        }
        tint := tint + 1;
      }
    }

    /** The second pass of create, over the sorted copy. */
    method FindGap(dirCopy: seq<Entry>, blocksRequested: nat) returns (newFileStart: nat)
      ensures newFileStart == Search(dirCopy, 0, 1, numBlocks, blocksRequested)
    {
      newFileStart := 0;
      var numUsedEntries, prevFileEnd := |dirCopy|, 1;
      var tint := 0;
      while tint < numUsedEntries + 1
        invariant 0 <= tint <= numUsedEntries + 1 && newFileStart == 0
        invariant Search(dirCopy, 0, 1, numBlocks, blocksRequested)
               == if tint <= numUsedEntries then Search(dirCopy, tint, prevFileEnd, numBlocks, blocksRequested) else 0
      {
        var thisFileStart :=
          if tint == numUsedEntries || IsDeleted(dirCopy[tint]) then numBlocks - 1 else dirCopy[tint].start;
        if (thisFileStart - prevFileEnd) % WORD >= blocksRequested {
          newFileStart := prevFileEnd;
          return;
        }
        if tint < numUsedEntries {
          prevFileEnd := EndOf(dirCopy[tint]);
        }
        tint := tint + 1;
      }
    }

    method Create(filename: string, size: nat)
      requires Valid()
      modifies directory
      ensures Valid() && directory[..] == Created(old(directory[..]), filename, size, numBlocks)
    {
      hide Used, FirstFree, Sorted, Search, Present;
      ghost var dir := directory[..];
      var maxsize := if size % 2 != 0 then size + 1 else size;
      var found, slot := FindFile(filename);
      if found {
        return;
      }
      var blocksRequested := maxsize / 2;
      var numUsedEntries, firstFreeEntry := ScanDirectory();
      if firstFreeEntry == -1 {
        return;
      }
      var dirCopy := Sorted(directory[..numUsedEntries]);
      assert directory[..numUsedEntries] == dir[..numUsedEntries];
      var newFileStart := FindGap(dirCopy, blocksRequested);
      assert newFileStart == Start(dir, size, numBlocks);
      if newFileStart == 0 {
        return;
      }
      directory[firstFreeEntry] := Entry(filename, newFileStart, blocksRequested);
      if firstFreeEntry == numUsedEntries && numUsedEntries + 1 < RECORDS {
        directory[numUsedEntries + 1] := directory[numUsedEntries + 1].(name := "");
      }
    }

    method Delete(filename: string)
      requires Valid()
      modifies directory
      ensures Valid()
      ensures !Present(old(directory[..]), filename) ==> directory[..] == old(directory[..])
      ensures Present(old(directory[..]), filename) ==>
                exists i :: 0 <= i < Used(old(directory[..])) && IsFile(old(directory[i]))
                  && old(directory[i]).name == filename && directory[..] == Deleted(old(directory[..]), i)
    {
      var found, slot := FindFile(filename);
      if found {
        ghost var dir := directory[..];
        directory[slot] := directory[slot].(name := [UNUSED] + directory[slot].name[1..]);
        assert directory[..] == Deleted(dir, slot);
      }
    }
  }
}
