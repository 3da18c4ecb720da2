/**
 Kernel/malloc.c: the first-fit heap. The arena is described by the sequence of its blocks; the class
 below keeps the same blocks as linked headers.

 Two lines are modelled as they are meant: `split` here redirects the `prev` of the old successor, and
 `merge` does not write through a `next` that has become NULL. The lemmas at the end say exactly when
 the lines as they are written go wrong.
 */
module Heap {

  const HEADER: nat := 32   // sizeof(block_t)

  datatype Cell = Cell(size: nat, used: bool)

  /** The offset of block i: headers and payloads follow each other without a gap. */
  function Offset(c: seq<Cell>, i: nat): nat
    requires i <= |c|
  {
    if i == 0 then 0 else Offset(c, i - 1) + HEADER + c[i - 1].size
  }

  lemma {:induction false} OffsetPrefix(c: seq<Cell>, d: seq<Cell>, i: nat)
    requires i <= |c| && i <= |d| && c[..i] == d[..i]
    ensures Offset(c, i) == Offset(d, i)
  {
    if i > 0 {
      assert c[..i - 1] == c[..i][..i - 1] == d[..i][..i - 1] == d[..i - 1];
      assert c[i - 1] == c[..i][i - 1] == d[..i][i - 1] == d[i - 1];
      OffsetPrefix(c, d, i - 1);
    }
  }

  /** Blocks behind equal offsets keep their offsets. */
  lemma {:induction false} OffsetSuffix(c: seq<Cell>, i: nat, d: seq<Cell>, j: nat, n: nat)
    requires i + n <= |c| && j + n <= |d| && Offset(c, i) == Offset(d, j)
    requires forall k :: i <= k < i + n ==> c[k] == d[k + j - i]
    ensures Offset(c, i + n) == Offset(d, j + n)
  {
    if n > 0 {
      OffsetSuffix(c, i, d, j, n - 1);
      assert c[i + n - 1] == d[j + n - 1];
    }
  }

  lemma OffsetStep(c: seq<Cell>, i: nat)
    requires i < |c|
    ensures Offset(c, i + 1) == Offset(c, i) + HEADER + c[i].size
  {
  }

  /** d is c with something done from block i on; the blocks of c behind i stand `shift` places later. */
  ghost predicate Spliced(c: seq<Cell>, d: seq<Cell>, i: nat, shift: int) {
    && |d| == |c| + shift && i < |c| && i < |d| && i + 1 + shift >= 0
    && (forall k :: 0 <= k < i ==> c[k] == d[k])
    && (forall k :: i < k < |c| && k + shift > i ==> c[k] == d[k + shift])
  }

  lemma SplicedOffsets(c: seq<Cell>, d: seq<Cell>, i: nat, shift: int, from: nat)
    requires Spliced(c, d, i, shift) && i < from <= |c| && i < from + shift && Offset(c, from) == Offset(d, from + shift)
    ensures forall k: nat :: k <= i ==> Offset(c, k) == Offset(d, k)
    ensures forall k: nat :: from <= k <= |c| ==> Offset(c, k) == Offset(d, k + shift)
  {
    hide Offset;
    forall k: nat | k <= i
      ensures Offset(c, k) == Offset(d, k)
    {
      assert c[..k] == d[..k];
      OffsetPrefix(c, d, k);
    }
    forall k: nat | from <= k <= |c|
      ensures Offset(c, k) == Offset(d, k + shift)
    {
      OffsetSuffix(c, from, d, from + shift, k - from);
    }
  }

  lemma {:induction false} OffsetOrder(c: seq<Cell>, i: nat, j: nat)
    requires i < j <= |c|
    ensures Offset(c, i) + HEADER + c[i].size <= Offset(c, j)
  {
    if i < j - 1 { OffsetOrder(c, i, j - 1); }
  }

  /** The block whose header is at offset `a` is handed out with `size` bytes behind the header. */
  ghost predicate Live(c: seq<Cell>, a: nat, size: nat) {
    exists i :: 0 <= i < |c| && c[i] == Cell(size, true) && Offset(c, i) == a
  }

  /** No two neighbours are both free. */
  ghost predicate Coalesced(c: seq<Cell>) {
    forall i :: 0 <= i < |c| - 1 ==> c[i].used || c[i + 1].used
  }

  // ------------------------------------------------------------- malloc

  /** The first block that is free and large enough; |c| if there is none. */
  function FirstFit(c: seq<Cell>, size: nat): (i: nat)
    ensures i <= |c|
    ensures i < |c| ==> !c[i].used && c[i].size >= size
    ensures forall j :: 0 <= j < i ==> c[j].used || c[j].size < size
  {
    if c == [] || (!c[0].used && c[0].size >= size) then 0
    else
      var i := 1 + FirstFit(c[1..], size);
      assert forall j :: 0 < j < i ==> c[j] == c[1..][j - 1];
      i
  }

  function Granted(c: seq<Cell>, i: nat, size: nat): nat
    requires i < |c| && c[i].size >= size
  {
    if c[i].size - size > HEADER then size else c[i].size
  }

  /** The arena when block i has been handed out for `size` bytes. */
  function Taken(c: seq<Cell>, i: nat, size: nat): seq<Cell>
    requires i < |c| && c[i].size >= size
  {
    if c[i].size - size > HEADER then
      c[..i] + [Cell(size, true), Cell(c[i].size - size - HEADER, false)] + c[i + 1..]
    else c[i := Cell(c[i].size, true)]
  }

  lemma TakenShape(c: seq<Cell>, i: nat, size: nat)
    requires i < |c| && c[i].size >= size
    ensures var d := Taken(c, i, size);
            && Spliced(c, d, i, |d| - |c|) && |c| <= |d| <= |c| + 1 && c[..i] == d[..i]
            && (|d| > |c| <==> c[i].size - size > HEADER)
            && (|d| > |c| ==> d[i + 1] == Cell(c[i].size - size - HEADER, false))
            && d[i] == Cell(Granted(c, i, size), true)
  {
  }

  lemma TakenOffsets(c: seq<Cell>, i: nat, size: nat)
    requires i < |c| && c[i].size >= size
    ensures var d := Taken(c, i, size);
            && Spliced(c, d, i, |d| - |c|) && |c| <= |d| <= |c| + 1
            && (|d| > |c| <==> c[i].size - size > HEADER)
            && (|d| > |c| ==> d[i + 1] == Cell(c[i].size - size - HEADER, false))
            && d[i] == Cell(Granted(c, i, size), true) && (|d| > |c| ==> !d[i + 1].used)
            && (forall k: nat :: k <= i ==> Offset(c, k) == Offset(d, k))
            && (forall k: nat :: i < k <= |c| ==> Offset(c, k) == Offset(d, k + |d| - |c|))
  {
    hide Offset, Taken;
    var d := Taken(c, i, size);
    var shift := |d| - |c|;
    TakenShape(c, i, size);
    OffsetPrefix(c, d, i);
    OffsetStep(c, i);
    OffsetStep(d, i);
    if shift == 1 { OffsetStep(d, i + 1); }
    SplicedOffsets(c, d, i, shift, i + 1);
  }

  lemma TakenKeeps(c: seq<Cell>, i: nat, size: nat)
    requires i < |c| && c[i].size >= size && !c[i].used && Coalesced(c)
    ensures Coalesced(Taken(c, i, size))
    ensures Offset(Taken(c, i, size), |Taken(c, i, size)|) == Offset(c, |c|)
  {
    hide Offset, Taken;
    TakenOffsets(c, i, size);
    var d := Taken(c, i, size);
    var shift := |d| - |c|;
    assert Offset(c, |c|) == Offset(d, |c| + shift);
    forall k | 0 <= k < |d| - 1
      ensures d[k].used || d[k + 1].used
    {
      if k < i - 1 {
        assert d[k] == c[k] && d[k + 1] == c[k + 1];
      } else if k > i + shift {
        assert d[k] == c[k - shift] && d[k + 1] == c[k + 1 - shift];
      } else if k == i + 1 {
        assert d[k + 1] == c[i + 1] && (c[i].used || c[i + 1].used);
      }
    }
  }

  /** Handing out a block makes exactly that block live; every other live block stays where it is. */
  lemma TakenAddsOne(c: seq<Cell>, i: nat, size: nat, a: nat, s: nat)
    requires i < |c| && c[i].size >= size && !c[i].used
    ensures Granted(c, i, size) == size || (Granted(c, i, size) == c[i].size && size <= c[i].size <= size + HEADER)
    ensures |Taken(c, i, size)| > |c| <==> c[i].size > size + HEADER
    ensures Live(Taken(c, i, size), a, s) <==>
              Live(c, a, s) || (a == Offset(c, i) && s == Granted(c, i, size))
  {
    hide Offset, Taken;
    TakenOffsets(c, i, size);
    var d := Taken(c, i, size);
    var shift := |d| - |c|;
    if Live(c, a, s) {
      var k :| 0 <= k < |c| && c[k] == Cell(s, true) && Offset(c, k) == a;
      var k' := if k < i then k else k + shift;
      assert d[k'] == Cell(s, true) && Offset(d, k') == a;
    }
    if Live(d, a, s) {
      var k :| 0 <= k < |d| && d[k] == Cell(s, true) && Offset(d, k) == a;
      if k < i {
        assert c[k] == Cell(s, true) && Offset(c, k) == a;
      } else if k > i {
        assert c[k - shift] == Cell(s, true) && Offset(c, k - shift) == a;
      }
    }
    if a == Offset(c, i) && s == Granted(c, i, size) {
      assert d[i] == Cell(s, true) && Offset(d, i) == a;
    }
  }

  // --------------------------------------------------------------- free

  /** Block i becomes free and absorbs a free successor. */
  function Joined(c: seq<Cell>, i: nat): (d: seq<Cell>)
    requires i < |c|
    ensures |c| - 1 <= |d| <= |c| && i < |d| && d[..i] == c[..i] && !d[i].used
  {
    if i + 1 < |c| && !c[i + 1].used then
      c[..i] + [Cell(c[i].size + c[i + 1].size + HEADER, false)] + c[i + 2..]
    else c[i := Cell(c[i].size, false)]
  }

  /** merge: the block joins its successor, then a free predecessor does the same. */
  function Merged(c: seq<Cell>, i: nat): seq<Cell>
    requires i < |c|
    decreases i
  {
    var d := Joined(c, i);
    if i > 0 && !d[i - 1].used then Merged(d, i - 1) else d
  }

  lemma JoinedOffsets(c: seq<Cell>, i: nat)
    requires i < |c|
    ensures var d := Joined(c, i);
            && Spliced(c, d, i, |d| - |c|)
            && (|d| < |c| <==> i + 1 < |c| && !c[i + 1].used)
            && (|d| < |c| ==> |d| == |c| - 1 && d[i] == Cell(c[i].size + c[i + 1].size + HEADER, false))
            && (forall k: nat :: k <= i ==> Offset(c, k) == Offset(d, k))
            && (forall k: nat :: i + 1 + |c| - |d| <= k <= |c| ==> Offset(c, k) == Offset(d, k + |d| - |c|))
  {
    hide Offset;
    var d := Joined(c, i);
    var shift := |d| - |c|;
    assert c[..i] == d[..i];
    OffsetPrefix(c, d, i);
    OffsetStep(c, i);
    OffsetStep(d, i);
    if shift == -1 { OffsetStep(c, i + 1); }
    SplicedOffsets(c, d, i, shift, i + 1 - shift);
  }

  /** Joining takes block i out of what is live and moves nothing that stays live. */
  lemma JoinedDropsOne(c: seq<Cell>, i: nat, a: nat, s: nat)
    requires i < |c|
    ensures Live(Joined(c, i), a, s) <==> Live(c, a, s) && !(c[i].used && a == Offset(c, i))
    ensures Offset(Joined(c, i), |Joined(c, i)|) == Offset(c, |c|)
  {
    hide Offset, Joined;
    JoinedOffsets(c, i);
    var d := Joined(c, i);
    var shift := |d| - |c|;
    assert Offset(c, |c|) == Offset(d, |c| + shift);
    if Live(d, a, s) { LiveBefore(c, d, i, shift, a, s); }
    if Live(c, a, s) && !(c[i].used && a == Offset(c, i)) { LiveAfter(c, d, i, shift, a, s); }
  }

  /** What two arenas share when the one is the other with block i freed and perhaps joined. */
  ghost predicate Dropped(c: seq<Cell>, d: seq<Cell>, i: nat, shift: int) {
    && Spliced(c, d, i, shift) && -1 <= shift <= 0 && !d[i].used && (shift == -1 ==> i + 1 < |c| && !c[i + 1].used)
    && (forall k: nat :: k <= i ==> Offset(c, k) == Offset(d, k))
    && (forall k: nat :: i + 1 - shift <= k <= |c| ==> Offset(c, k) == Offset(d, k + shift))
  }

  lemma LiveBefore(c: seq<Cell>, d: seq<Cell>, i: nat, shift: int, a: nat, s: nat)
    requires Dropped(c, d, i, shift) && Live(d, a, s)
    ensures Live(c, a, s) && a != Offset(c, i)
  {
    hide Offset;
    var k :| 0 <= k < |d| && d[k] == Cell(s, true) && Offset(d, k) == a;
    var k' := if k < i then k else k - shift;
    assert c[k'] == d[k];
    assert Offset(c, k') == a;
    DistinctOffsets(c, k', i);
  }

  lemma LiveAfter(c: seq<Cell>, d: seq<Cell>, i: nat, shift: int, a: nat, s: nat)
    requires Dropped(c, d, i, shift) && Live(c, a, s) && !(c[i].used && a == Offset(c, i))
    ensures Live(d, a, s)
  {
    hide Offset;
    var k :| 0 <= k < |c| && c[k] == Cell(s, true) && Offset(c, k) == a;
    var k' := if k < i then k else k + shift;
    assert d[k'] == c[k];
    assert Offset(d, k') == a;
  }

  lemma DistinctOffsets(c: seq<Cell>, i: nat, j: nat)
    requires i <= |c| && j <= |c| && i != j
    ensures Offset(c, i) != Offset(c, j)
  {
    hide Offset;
    if i < j { OffsetOrder(c, i, j); } else { OffsetOrder(c, j, i); }
  }

  /** free takes exactly the freed block out of what is live, and the blocks still tile the arena. */
  lemma {:induction false} MergedDropsOne(c: seq<Cell>, i: nat, a: nat, s: nat)
    requires i < |c|
    ensures Live(Merged(c, i), a, s) <==> Live(c, a, s) && !(c[i].used && a == Offset(c, i))
    ensures Offset(Merged(c, i), |Merged(c, i)|) == Offset(c, |c|)
    decreases i
  {
    hide Joined, Offset, Live;
    JoinedDropsOne(c, i, a, s);
    var d := Joined(c, i);
    if i > 0 && !d[i - 1].used { MergedDropsOne(d, i - 1, a, s); }
  }

  /** Freeing in an arena without free neighbours leaves none; the recursion goes one step back at most. */
  lemma MergedKeeps(c: seq<Cell>, i: nat)
    requires i < |c| && c[i].used && Coalesced(c)
    ensures Coalesced(Merged(c, i))
  {
    var d := Joined(c, i);
    JoinedAround(c, i);
    if i > 0 && !d[i - 1].used {
      hide Joined;
      var e := Joined(d, i - 1);
      JoinedAgain(d, i);
      assert Merged(c, i) == Merged(d, i - 1) == e;
    }
  }

  /** After joining the only free neighbour that block i can have is the one in front of it. */
  lemma JoinedAround(c: seq<Cell>, i: nat)
    requires i < |c| && c[i].used && Coalesced(c)
    ensures var d := Joined(c, i);
            && (forall k :: 0 <= k < |d| - 1 && k != i - 1 ==> d[k].used || d[k + 1].used)
            && (i > 1 ==> d[i - 2].used || d[i - 1].used)
  {
    hide Offset, Joined;
    JoinedOffsets(c, i);
    var d := Joined(c, i);
    var shift := |d| - |c|;
    forall k | 0 <= k < |d| - 1 && k != i - 1
      ensures d[k].used || d[k + 1].used
    {
      if k < i - 1 {
        assert d[k] == c[k] && d[k + 1] == c[k + 1];
      } else if k > i {
        assert d[k] == c[k - shift] && d[k + 1] == c[k + 1 - shift];
      } else {
        assert d[k + 1] == c[k + 1 - shift];
        if shift == -1 { assert c[i + 1].used || c[i + 2].used; }
      }
    }
  }

  lemma JoinedAgain(d: seq<Cell>, i: nat)
    requires 0 < i < |d| && !d[i].used && !d[i - 1].used
    requires forall k :: 0 <= k < |d| - 1 && k != i - 1 ==> d[k].used || d[k + 1].used
    ensures Coalesced(Joined(d, i - 1))
    ensures i > 1 ==> Joined(d, i - 1)[i - 2].used
  {
    var e := Joined(d, i - 1);
    assert i > 1 ==> d[i - 2].used;
    forall k | 0 <= k < |e| - 1
      ensures e[k].used || e[k + 1].used
    {
      if k < i - 2 {
        assert e[k] == d[k] && e[k + 1] == d[k + 1];
      } else if k >= i {
        assert e[k] == d[k + 1] && e[k + 1] == d[k + 2];
      } else if k == i - 1 {
        assert e[k + 1] == d[i + 1] && (d[i].used || d[i + 1].used);
      }
    }
  }

  lemma JoinUndoesTake(c: seq<Cell>, i: nat, size: nat)
    requires i < |c| && c[i].size >= size && !c[i].used && (i + 1 < |c| ==> c[i + 1].used)
    ensures |Taken(c, i, size)| > i && Joined(Taken(c, i, size), i) == c
  {
    var d := Taken(c, i, size);
    if c[i].size - size > HEADER {
      var rest := c[i + 1..];
      assert d[i + 2..] == rest && d[..i] == c[..i];
      assert Joined(d, i) == c[..i] + [c[i]] + rest;
    }
  }

  /** Giving back what was just handed out restores the very same blocks. */
  lemma FreeUndoesMalloc(c: seq<Cell>, size: nat)
    requires Coalesced(c) && FirstFit(c, size) < |c|
    ensures var i := FirstFit(c, size);
            |Taken(c, i, size)| > i && Merged(Taken(c, i, size), i) == c
  {
    hide FirstFit, Taken, Joined;
    var i := FirstFit(c, size);
    assert i > 0 ==> c[i - 1].used;
    JoinUndoesTake(c, i, size);
  }

  // ------------------------------------------------------- block headers

  /** block_t at some address; 0 is NULL. */
  datatype Header = Header(size: nat, next: nat, prev: nat, used: bool)

  type Memory = map<nat, Header>

  function At(base: nat, c: seq<Cell>, i: nat): nat
    requires i <= |c|
  {
    base + Offset(c, i)
  }

  function HeaderOf(base: nat, c: seq<Cell>, i: nat): Header
    requires i < |c|
  {
    Header(c[i].size, if i + 1 < |c| then At(base, c, i + 1) else 0, if i > 0 then At(base, c, i - 1) else 0, c[i].used)
  }

  /** The headers in memory are the doubly linked chain of the blocks. */
  ghost predicate Linked(mem: Memory, base: nat, c: seq<Cell>) {
    base > 0 && forall i: nat :: i < |c| ==> At(base, c, i) in mem && mem[At(base, c, i)] == HeaderOf(base, c, i)
  }

  /** What split does to the headers; the source leaves the successor's prev as it is. */
  function SplitHeaders(mem: Memory, block: nat, size: nat, redirect: bool): Memory
    requires block in mem && mem[block].size >= size
    requires mem[block].next != 0 ==> mem[block].next in mem
  {
    var b := mem[block];
    if b.size - size > HEADER then
      var n := block + HEADER + size;
      var m := mem[block := b.(size := size, next := n)][n := Header(b.size - size - HEADER, b.next, block, false)];
      if redirect && b.next != 0 then m[b.next := m[b.next].(prev := n)] else m
    else mem
  }

  /** What one step of merge does to the headers. */
  function JoinHeaders(mem: Memory, block: nat): Memory
    requires block in mem && mem[block].next != block
    requires mem[block].next != 0 ==> mem[block].next in mem
    requires mem[block].next != 0 && !mem[mem[block].next].used && mem[mem[block].next].next != 0 ==>
               mem[mem[block].next].next in mem
  {
    var b := mem[block].(used := false);
    if b.next != 0 && !mem[b.next].used then
      var n := mem[b.next];
      var m := mem[block := b.(size := b.size + n.size + HEADER, next := n.next)];
      if n.next != 0 then m[n.next := m[n.next].(prev := block)] else m
    else mem[block := b]
  }

  lemma LinkedAt(mem: Memory, base: nat, c: seq<Cell>, i: nat)
    requires Linked(mem, base, c) && i < |c|
    ensures At(base, c, i) in mem && mem[At(base, c, i)] == HeaderOf(base, c, i)
    ensures base > 0 && At(base, c, i) > 0
    ensures i + 1 < |c| ==> At(base, c, i + 1) in mem && mem[At(base, c, i)].next == At(base, c, i + 1) > 0
    ensures i + 1 == |c| ==> mem[At(base, c, i)].next == 0
  {
    hide Offset;
    if i + 1 < |c| { assert At(base, c, i + 1) in mem; }
  }

  lemma AtDistinct(base: nat, c: seq<Cell>, i: nat, j: nat)
    requires i <= |c| && j <= |c| && i != j
    ensures At(base, c, i) != At(base, c, j)
  {
    hide Offset;
    DistinctOffsets(c, i, j);
  }

  /** Splitting as it is meant, then marking the block used, gives the chain of the arena with it taken. */
  lemma TakenIsLinked(mem: Memory, base: nat, c: seq<Cell>, i: nat, size: nat)
    requires Linked(mem, base, c) && i < |c| && c[i].size >= size && !c[i].used
    ensures var b := At(base, c, i);
            && b in mem && mem[b].size == c[i].size && (mem[b].next != 0 ==> mem[b].next in mem)
            && var m := SplitHeaders(mem, b, size, true);
            b in m && Linked(m[b := m[b].(used := true)], base, Taken(c, i, size))
  {
    hide Offset, Taken, Live;
    var b := At(base, c, i);
    LinkedAt(mem, base, c, i);
    TakenOffsets(c, i, size);
    var d := Taken(c, i, size);
    var shift := |d| - |c|;
    var m := SplitHeaders(mem, b, size, true);
    var m' := m[b := m[b].(used := true)];
    forall k: nat | k < |d|
      ensures At(base, d, k) in m' && m'[At(base, d, k)] == HeaderOf(base, d, k)
    {
      TakenHeader(mem, base, c, i, size, k);
    }
  }

  /** Reading the headers after a split and the marking of the block. */
  lemma SplitLookup(mem: Memory, b: nat, size: nat, a: nat)
    requires b in mem && mem[b].size >= size && (mem[b].next != 0 ==> mem[b].next in mem)
    requires mem[b].size - size > HEADER ==> mem[b].next == 0 || mem[b].next > b + HEADER + size
    ensures var m := SplitHeaders(mem, b, size, true);
            && b in m
            && var m' := m[b := m[b].(used := true)];
            if mem[b].size - size > HEADER then
              var n := b + HEADER + size;
              && (a == b ==> a in m' && m'[a] == Header(size, n, mem[b].prev, true))
              && (a == n ==> a in m' && m'[a] == Header(mem[b].size - size - HEADER, mem[b].next, b, false))
              && (a == mem[b].next && a != 0 ==> a in m' && m'[a] == mem[a].(prev := n))
              && (a != b && a != n && a != mem[b].next && a in mem ==> a in m' && m'[a] == mem[a])
            else
              && (a == b ==> a in m' && m'[a] == mem[b].(used := true))
              && (a != b && a in mem ==> a in m' && m'[a] == mem[a])
  {
  }

  lemma TakenHeader(mem: Memory, base: nat, c: seq<Cell>, i: nat, size: nat, k: nat)
    requires Linked(mem, base, c) && i < |c| && c[i].size >= size && !c[i].used && k < |Taken(c, i, size)|
    ensures var b := At(base, c, i);
            && b in mem && mem[b].size >= size && (mem[b].next != 0 ==> mem[b].next in mem)
            && var m := SplitHeaders(mem, b, size, true);
            && b in m
            && var m', d := m[b := m[b].(used := true)], Taken(c, i, size);
            At(base, d, k) in m' && m'[At(base, d, k)] == HeaderOf(base, d, k)
  {
    hide Offset, Live, SplitHeaders, Linked, Taken;
    var b := At(base, c, i);
    LinkedAt(mem, base, c, i);
    OffsetStep(c, i);
    SplitLookup(mem, b, size, At(base, Taken(c, i, size), k));
    if c[i].size - size > HEADER {
      HeaderAfterSplit(mem, base, c, i, size, k);
    } else {
      HeaderWithoutSplit(mem, base, c, i, size, k);
    }
  }

  lemma HeaderWithoutSplit(mem: Memory, base: nat, c: seq<Cell>, i: nat, size: nat, k: nat)
    requires Linked(mem, base, c) && i < |c| && 0 <= c[i].size - size <= HEADER && k < |Taken(c, i, size)|
    ensures var d := Taken(c, i, size);
            && |d| == |c| && At(base, d, k) == At(base, c, k) && At(base, c, k) in mem && At(base, c, i) in mem
            && (k == i ==> HeaderOf(base, d, k) == mem[At(base, c, k)].(used := true))
            && (k != i ==> HeaderOf(base, d, k) == mem[At(base, c, k)] && At(base, d, k) != At(base, c, i))
  {
    hide Offset, Live, Linked;
    TakenOffsets(c, i, size);
    LinkedAt(mem, base, c, k);
    LinkedAt(mem, base, c, i);
    if k != i { AtDistinct(base, c, k, i); }
  }

  lemma HeaderAfterSplit(mem: Memory, base: nat, c: seq<Cell>, i: nat, size: nat, k: nat)
    requires Linked(mem, base, c) && i < |c| && c[i].size - size > HEADER && k < |Taken(c, i, size)|
    ensures var b, d := At(base, c, i), Taken(c, i, size);
            var n, a := b + HEADER + size, At(base, d, k);
            && b in mem && mem[b].size == c[i].size && a > 0
            && (k == i <==> a == b) && (k == i + 1 <==> a == n)
            && (k == i ==> HeaderOf(base, d, k) == Header(size, n, mem[b].prev, true))
            && (k == i + 1 ==> HeaderOf(base, d, k) == Header(mem[b].size - size - HEADER, mem[b].next, b, false))
            && (k == i + 2 <==> a == mem[b].next && a != 0)
            && (k == i + 2 ==> a in mem && HeaderOf(base, d, k) == mem[a].(prev := n))
            && (k < i || k > i + 2 ==> a in mem && HeaderOf(base, d, k) == mem[a])
  {
    hide Offset, Live, Linked, Taken;
    TakenOffsets(c, i, size);
    OffsetStep(c, i);
    LinkedAt(mem, base, c, i);
    var d := Taken(c, i, size);
    OffsetStep(d, i);
    OffsetStep(d, i + 1);
    if k != i { AtDistinct(base, d, k, i); }
    if k != i + 1 { AtDistinct(base, d, k, i + 1); }
    if k != i + 2 { AtDistinct(base, d, k, i + 2); }
    if k < i {
      LinkedAt(mem, base, c, k);
      assert c[k] == d[k];
    } else if k > i + 1 {
      LinkedAt(mem, base, c, k - 1);
      assert c[k - 1] == d[k];
    }
  }

  /** The headers that merge reads are there. */
  ghost predicate JoinReady(mem: Memory, b: nat) {
    && b in mem && mem[b].next != b
    && (mem[b].next != 0 ==> mem[b].next in mem)
    && (mem[b].next != 0 && !mem[mem[b].next].used && mem[mem[b].next].next != 0 ==> mem[mem[b].next].next in mem)
  }

  lemma LinkedJoinReady(mem: Memory, base: nat, c: seq<Cell>, i: nat)
    requires Linked(mem, base, c) && i < |c|
    ensures JoinReady(mem, At(base, c, i))
    ensures i + 1 < |c| ==> mem[mem[At(base, c, i)].next].used == c[i + 1].used
    ensures i > 0 ==> mem[At(base, c, i)].prev == At(base, c, i - 1) > 0
    ensures i == 0 ==> mem[At(base, c, i)].prev == 0
  {
    hide Offset, Linked;
    LinkedAt(mem, base, c, i);
    if i + 1 < |c| {
      AtDistinct(base, c, i, i + 1);
      LinkedAt(mem, base, c, i + 1);
    }
    if i > 0 { LinkedAt(mem, base, c, i - 1); }
  }

  lemma JoinLookup(mem: Memory, b: nat, a: nat)
    requires JoinReady(mem, b)
    requires mem[b].next != 0 && !mem[mem[b].next].used ==> mem[mem[b].next].next != b
    ensures var m, n := JoinHeaders(mem, b), mem[b].next;
            if n != 0 && !mem[n].used then
              && (a == b ==> a in m && m[a] == Header(mem[b].size + mem[n].size + HEADER, mem[n].next, mem[b].prev, false))
              && (a == mem[n].next && a != 0 ==> a in m && m[a] == mem[a].(prev := b))
              && (a != b && a != mem[n].next && a in mem ==> a in m && m[a] == mem[a])
            else
              && (a == b ==> a in m && m[a] == mem[b].(used := false))
              && (a != b && a in mem ==> a in m && m[a] == mem[a])
  {
  }

  lemma HeaderAfterJoin(mem: Memory, base: nat, c: seq<Cell>, i: nat, k: nat)
    requires Linked(mem, base, c) && i + 1 < |c| && !c[i + 1].used && k < |Joined(c, i)|
    ensures var b, d := At(base, c, i), Joined(c, i);
            var n, a := At(base, c, i + 1), At(base, d, k);
            && b in mem && n in mem && mem[b].next == n && n != 0 && a > 0 && mem[n].next != b
            && (k == i <==> a == b)
            && (k == i ==>
                  HeaderOf(base, d, k) == Header(mem[b].size + mem[n].size + HEADER, mem[n].next, mem[b].prev, false))
            && (k == i + 1 <==> a == mem[n].next)
            && (k == i + 1 ==> a in mem && HeaderOf(base, d, k) == mem[a].(prev := b))
            && (k < i || k > i + 1 ==> a in mem && HeaderOf(base, d, k) == mem[a])
  {
    hide Offset, Live, Linked, Joined;
    JoinedOffsets(c, i);
    LinkedAt(mem, base, c, i);
    LinkedAt(mem, base, c, i + 1);
    var d := Joined(c, i);
    if k != i { AtDistinct(base, d, k, i); }
    if i + 2 < |c| {
      LinkedAt(mem, base, c, i + 2);
      AtDistinct(base, c, i + 2, i);
      if k != i + 1 { AtDistinct(base, d, k, i + 1); }
    }
    if k < i {
      LinkedAt(mem, base, c, k);
      assert c[k] == d[k];
    } else if k > i {
      LinkedAt(mem, base, c, k + 1);
      assert c[k + 1] == d[k];
    }
  }

  lemma HeaderWithoutJoin(mem: Memory, base: nat, c: seq<Cell>, i: nat, k: nat)
    requires Linked(mem, base, c) && i < |c| && (i + 1 < |c| ==> c[i + 1].used) && k < |Joined(c, i)|
    ensures var d := Joined(c, i);
            && |d| == |c| && At(base, d, k) == At(base, c, k) && At(base, c, k) in mem && At(base, c, i) in mem
            && (k == i ==> HeaderOf(base, d, k) == mem[At(base, c, k)].(used := false))
            && (k != i ==> HeaderOf(base, d, k) == mem[At(base, c, k)] && At(base, d, k) != At(base, c, i))
  {
    hide Offset, Live, Linked;
    JoinedOffsets(c, i);
    LinkedAt(mem, base, c, k);
    LinkedAt(mem, base, c, i);
    if k != i { AtDistinct(base, c, k, i); }
  }

  /** One step of merge as it is meant gives the chain of the joined arena. */
  lemma JoinedIsLinked(mem: Memory, base: nat, c: seq<Cell>, i: nat)
    requires Linked(mem, base, c) && i < |c|
    ensures JoinReady(mem, At(base, c, i))
    ensures Linked(JoinHeaders(mem, At(base, c, i)), base, Joined(c, i))
  {
    hide Offset, Live, JoinHeaders, Joined;
    var b, d := At(base, c, i), Joined(c, i);
    LinkedAt(mem, base, c, i);
    LinkedJoinReady(mem, base, c, i);
    var m := JoinHeaders(mem, b);
    forall k: nat | k < |d|
      ensures At(base, d, k) in m && m[At(base, d, k)] == HeaderOf(base, d, k)
    {
      if i + 1 < |c| && !c[i + 1].used {
        HeaderAfterJoin(mem, base, c, i, k);
      } else {
        HeaderWithoutJoin(mem, base, c, i, k);
      }
      JoinLookup(mem, b, At(base, d, k));
    }
  }

  // ------------------------------------------------------- as it is written

  /**
   split as it is written keeps the chain exactly when nothing is split off or the block is the last
   one; in every other case the old successor still points back to the block.
   */
  lemma SplitAsWritten(mem: Memory, base: nat, c: seq<Cell>, i: nat, size: nat)
    requires Linked(mem, base, c) && i < |c| && c[i].size >= size && !c[i].used
    ensures var b := At(base, c, i);
            && b in mem && mem[b].size == c[i].size && (mem[b].next != 0 ==> mem[b].next in mem)
            && var m := SplitHeaders(mem, b, size, false);
            && b in m
            && (Linked(m[b := m[b].(used := true)], base, Taken(c, i, size))
                <==> c[i].size - size <= HEADER || i + 1 == |c|)
  {
    hide Offset, Taken, Live;
    var b := At(base, c, i);
    LinkedAt(mem, base, c, i);
    if c[i].size - size <= HEADER || i + 1 == |c| {
      TakenIsLinked(mem, base, c, i, size);
    } else {
      OffsetStep(c, i);
      TakenOffsets(c, i, size);
      LinkedAt(mem, base, c, i + 1);
      HeaderAfterSplit(mem, base, c, i, size, i + 2);
      var m := SplitHeaders(mem, b, size, false);
      var m' := m[b := m[b].(used := true)];
      var a := mem[b].next;
      TakenOffsets(c, i, size);
      assert m'[a].prev == b;
      assert a == At(base, Taken(c, i, size), i + 2);
    }
  }

  /** One step of merge as it is written: it loads `next->next` into `next` and writes through it. */
  ghost predicate StepWritesNull(mem: Memory, b: nat)
    requires JoinReady(mem, b)
  {
    mem[b].next != 0 && !mem[mem[b].next].used && mem[mem[b].next].next == 0
  }

  /** Some step of a whole merge, which goes on with a free predecessor, writes through NULL. */
  ghost predicate MergeWritesNull(mem: Memory, b: nat)
    decreases b
  {
    && JoinReady(mem, b)
    && (StepWritesNull(mem, b)
        || var m, prev := JoinHeaders(mem, b), mem[b].prev;
           0 < prev < b && prev in m && !m[prev].used && MergeWritesNull(m, prev))
  }

  lemma StepAsWritten(mem: Memory, base: nat, c: seq<Cell>, i: nat)
    requires Linked(mem, base, c) && i < |c|
    ensures JoinReady(mem, At(base, c, i))
    ensures StepWritesNull(mem, At(base, c, i)) <==> i + 2 == |c| && !c[i + 1].used
  {
    hide Offset, Linked;
    var b := At(base, c, i);
    LinkedJoinReady(mem, base, c, i);
    LinkedAt(mem, base, c, i);
    if i + 1 < |c| {
      LinkedAt(mem, base, c, i + 1);
      if i + 2 < |c| { LinkedAt(mem, base, c, i + 2); }
    }
  }

  /** merge goes on from block i exactly when there is a free predecessor, on the joined chain. */
  lemma MergeGoesOn(mem: Memory, base: nat, c: seq<Cell>, i: nat)
    requires Linked(mem, base, c) && i < |c|
    ensures var b, d := At(base, c, i), Joined(c, i);
            && JoinReady(mem, b)
            && var m, prev := JoinHeaders(mem, b), mem[b].prev;
               && Linked(m, base, d)
               && (0 < prev < b && prev in m && !m[prev].used <==> i > 0 && !c[i - 1].used)
               && (i > 0 ==> prev == At(base, d, i - 1))
  {
    hide Offset, Linked, Joined, JoinHeaders;
    LinkedJoinReady(mem, base, c, i);
    JoinedIsLinked(mem, base, c, i);
    JoinedOffsets(c, i);
    if i > 0 {
      var d := Joined(c, i);
      LinkedAt(JoinHeaders(mem, At(base, c, i)), base, d, i - 1);
      assert d[i - 1] == d[..i][i - 1] == c[i - 1];
      OffsetStep(c, i - 1);
    }
  }

  /**
   free as it is written writes through NULL exactly when it absorbs the last block of the arena or the
   last block is absorbed: the block before the last is freed and the last is free, or the last one is
   freed behind a free one.
   */
  lemma {:induction false} MergeAsWritten(mem: Memory, base: nat, c: seq<Cell>, i: nat)
    requires Linked(mem, base, c) && i < |c|
    ensures MergeWritesNull(mem, At(base, c, i)) <==>
              (i + 2 == |c| && !c[i + 1].used) || (i > 0 && !c[i - 1].used && i + 1 == |c|)
    decreases i
  {
    hide Offset, Linked, Joined, JoinHeaders, StepWritesNull;
    StepAsWritten(mem, base, c, i);
    MergeGoesOn(mem, base, c, i);
    if i > 0 && !c[i - 1].used {
      var d := Joined(c, i);
      JoinedOffsets(c, i);
      MergeAsWritten(JoinHeaders(mem, At(base, c, i)), base, d, i - 1);
    }
  }

  // ------------------------------------------------------------- the runs

  datatype Call = Malloc(size: nat) | Free(block: nat)

  predicate Allowed(c: seq<Cell>, k: Call) {
    k.Free? ==> k.block < |c| && c[k.block].used
  }

  function After(c: seq<Cell>, k: Call): seq<Cell>
    requires Allowed(c, k)
  {
    match k
    case Malloc(size) => (var i := FirstFit(c, size); if i < |c| then Taken(c, i, size) else c)
    case Free(block) => Merged(c, block)
  }

  ghost predicate Runs(c: seq<Cell>, ks: seq<Call>, d: seq<Cell>)
    decreases ks
  {
    if ks == [] then c == d else Allowed(c, ks[0]) && Runs(After(c, ks[0]), ks[1..], d)
  }

  /**
   In every run of malloc and free the blocks tile the same arena and no two neighbours are free, and
   a malloc that fails finds no free block that is large enough.
   */
  lemma {:induction false} RunsKeep(c: seq<Cell>, ks: seq<Call>, d: seq<Cell>, size: nat)
    requires Coalesced(c) && Runs(c, ks, d)
    ensures Coalesced(d) && Offset(d, |d|) == Offset(c, |c|)
    ensures FirstFit(d, size) == |d| <==> forall i :: 0 <= i < |d| ==> d[i].used || d[i].size < size
    decreases ks
  {
    hide Offset, Coalesced, Taken, Merged;
    if ks != [] {
      match ks[0] {
        case Malloc(n) =>
          var i := FirstFit(c, n);
          if i < |c| { TakenKeeps(c, i, n); }
        case Free(block) =>
          MergedKeeps(c, block);
          MergedDropsOne(c, block, 0, 0);
      }
      RunsKeep(After(c, ks[0]), ks[1..], d, size);
    }
  }

  /** The payloads of two live blocks have no byte in common and lie inside the arena. */
  lemma PayloadsDisjoint(c: seq<Cell>, a: nat, s: nat, b: nat, t: nat)
    requires Live(c, a, s) && Live(c, b, t) && a != b
    ensures a + HEADER + s <= b || b + HEADER + t <= a
    ensures a + HEADER + s <= Offset(c, |c|)
  {
    hide Offset;
    var i :| 0 <= i < |c| && c[i] == Cell(s, true) && Offset(c, i) == a;
    var j :| 0 <= j < |c| && c[j] == Cell(t, true) && Offset(c, j) == b;
    if i < j { OffsetOrder(c, i, j); } else { OffsetOrder(c, j, i); }
    OffsetOrder(c, i, |c|);
  }

  // ------------------------------------------------- where the lines as written go wrong

  /** Every arena has its chain of headers. */
  lemma {:induction false} ChainUpTo(base: nat, c: seq<Cell>, n: nat) returns (mem: Memory)
    requires base > 0 && n <= |c|
    ensures forall i: nat :: i < n ==> At(base, c, i) in mem && mem[At(base, c, i)] == HeaderOf(base, c, i)
  {
    hide Offset, HeaderOf;
    if n == 0 {
      mem := map[];
    } else {
      mem := ChainUpTo(base, c, n - 1);
      forall i: nat | i < n - 1
        ensures At(base, c, i) != At(base, c, n - 1)
      {
        AtDistinct(base, c, i, n - 1);
      }
      mem := mem[At(base, c, n - 1) := HeaderOf(base, c, n - 1)];
    }
  }

  lemma ChainOf(base: nat, c: seq<Cell>) returns (mem: Memory)
    requires base > 0
    ensures Linked(mem, base, c)
  {
    mem := ChainUpTo(base, c, |c|);
  }

  lemma TakesFirst(c: seq<Cell>, size: nat, i: nat, d: seq<Cell>)
    requires i < |c| && !c[i].used && c[i].size >= size && d == Taken(c, i, size)
    requires forall j :: 0 <= j < i ==> c[j].used
    ensures After(c, Malloc(size)) == d
  {
    hide Taken;
    assert FirstFit(c, size) <= i;
  }

  /** The first malloc on a fresh arena and its free: the free writes through NULL. */
  lemma FirstFreeWritesNull(base: nat, c: seq<Cell>, d: seq<Cell>) returns (mem: Memory)
    requires base > 0 && c == [Cell(200, false)] && d == [Cell(8, true), Cell(160, false)]
    ensures Runs(c, [Malloc(8)], d) && Linked(mem, base, d) && MergeWritesNull(mem, At(base, d, 0))
  {
    hide After, Linked, MergeWritesNull;
    TakesFirst(c, 8, 0, d);
    OneCall(c, Malloc(8), d);
    mem := ChainOf(base, d);
    MergeAsWritten(mem, base, d, 0);
  }

  /** Two blocks fill the arena; the first is freed, then the second: that free writes through NULL. */
  lemma FreeBehindFreeWritesNull(base: nat, c: seq<Cell>, d: seq<Cell>) returns (mem: Memory)
    requires base > 0 && c == [Cell(200, false)] && d == [Cell(8, false), Cell(160, true)]
    ensures Runs(c, [Malloc(8), Malloc(160), Free(0)], d) && Linked(mem, base, d) && MergeWritesNull(mem, At(base, d, 1))
  {
    hide After, Linked, MergeWritesNull;
    var c1, c2 := [Cell(8, true), Cell(160, false)], [Cell(8, true), Cell(160, true)];
    TakesFirst(c, 8, 0, c1);
    TakesFirst(c1, 160, 1, c2);
    FreesFirst(c2, d);
    OneCall(c2, Free(0), d);
    MoreCalls(c1, Malloc(160), c2, [Free(0)], d);
    MoreCalls(c, Malloc(8), c1, [Malloc(160), Free(0)], d);
    assert [Malloc(8)] + [Malloc(160), Free(0)] == [Malloc(8), Malloc(160), Free(0)];
    mem := ChainOf(base, d);
    MergeAsWritten(mem, base, d, 1);
  }

  /** A block freed in front of others and partly handed out again: its split breaks the chain. */
  lemma SplitBreaksAChain(base: nat, c: seq<Cell>, d: seq<Cell>) returns (mem: Memory)
    requires base > 0 && c == [Cell(1000, false)] && d == [Cell(200, false), Cell(8, true), Cell(728, false)]
    ensures Runs(c, [Malloc(200), Malloc(8), Free(0)], d) && Linked(mem, base, d) && FirstFit(d, 8) == 0
    ensures var b := At(base, d, 0);
            && b in mem && mem[b].size >= 8 && (mem[b].next != 0 ==> mem[b].next in mem)
            && var m := SplitHeaders(mem, b, 8, false);
               b in m && !Linked(m[b := m[b].(used := true)], base, Taken(d, 0, 8))
  {
    hide After, Linked, Taken;
    var c1 := [Cell(200, true), Cell(768, false)];
    var c2 := [Cell(200, true), Cell(8, true), Cell(728, false)];
    FirstSplit(c, c1, c2);
    FreesFirst(c2, d);
    OneCall(c2, Free(0), d);
    MoreCalls(c1, Malloc(8), c2, [Free(0)], d);
    MoreCalls(c, Malloc(200), c1, [Malloc(8), Free(0)], d);
    assert [Malloc(200)] + [Malloc(8), Free(0)] == [Malloc(200), Malloc(8), Free(0)];
    mem := ChainOf(base, d);
    LinkedAt(mem, base, d, 0);
    SplitAsWritten(mem, base, d, 0, 8);
  }

  lemma FirstSplit(c: seq<Cell>, c1: seq<Cell>, c2: seq<Cell>)
    requires c == [Cell(1000, false)] && c1 == [Cell(200, true), Cell(768, false)]
    requires c2 == [Cell(200, true), Cell(8, true), Cell(728, false)]
    ensures After(c, Malloc(200)) == c1 && After(c1, Malloc(8)) == c2
  {
    TakesFirst(c, 200, 0, c1);
    TakesFirst(c1, 8, 1, c2);
  }

  lemma FreesFirst(c: seq<Cell>, d: seq<Cell>)
    requires |c| > 1 && c[0].used && c[1].used && d == c[0 := Cell(c[0].size, false)]
    ensures After(c, Free(0)) == d
  {
  }

  lemma OneCall(c: seq<Cell>, k: Call, d: seq<Cell>)
    requires Allowed(c, k) && After(c, k) == d
    ensures Runs(c, [k], d)
  {
    hide After;
    assert [k][1..] == [];
    assert Runs(d, [], d);
  }

  lemma MoreCalls(c: seq<Cell>, k: Call, c1: seq<Cell>, ks: seq<Call>, d: seq<Cell>)
    requires Allowed(c, k) && After(c, k) == c1 && Runs(c1, ks, d)
    ensures Runs(c, [k] + ks, d)
  {
    hide After;
    assert ([k] + ks)[1..] == ks;
  }

  // ------------------------------------------------------------- the heap

  class KernelHeap {
    var first: nat
    var mem: Memory
    ghost var cells: seq<Cell>

    ghost predicate Valid()
      reads this
    {
      if first == 0 then cells == [] else cells != [] && Linked(mem, first, cells)
    }

    constructor ()
      ensures Valid() && first == 0 && cells == []
    {
      first, mem, cells := 0, map[], [];
    }

    /** init_malloc, given the memory that getMemory returned. */
    method Init(block: nat, bytes: nat)
      requires block > 0 && bytes >= HEADER
      modifies this
      ensures Valid() && first == block && cells == [Cell(bytes - HEADER, false)]
    {
      mem := map[block := Header(bytes - HEADER, 0, 0, false)];
      first := block;
      cells := [Cell(bytes - HEADER, false)];
    }

    method Malloc(size: nat) returns (pointer: nat)
      requires Valid()
      modifies this
      ensures Valid() && first == old(first)
      ensures var c, i := old(cells), FirstFit(old(cells), size);
              if i == |c| then pointer == 0 && cells == c
              else pointer == first + Offset(c, i) + HEADER && cells == Taken(c, i, size)
    {
      hide Offset, Linked, Taken, SplitHeaders, FirstFit;
      if first == 0 {
        FitsNowhere(cells, size);
        return 0;
      }
      var currBlock := first;
      ghost var k := 0;
      FirstAt(first, cells);
      LinkedAt(mem, first, cells, 0);
      while mem[currBlock].used || mem[currBlock].size < size
        invariant mem == old(mem) && cells == old(cells) && first == old(first)
        invariant k < |cells| && currBlock == At(first, cells, k)
        invariant currBlock in mem && mem[currBlock] == HeaderOf(first, cells, k)
        invariant k <= FirstFit(cells, size)
        decreases |cells| - k
      {
        SearchOn(cells, size, k);
        LinkedAt(mem, first, cells, k);
        if mem[currBlock].next == 0 {
          return 0;
        }
        currBlock := mem[currBlock].next;
        k := k + 1;
        LinkedAt(mem, first, cells, k);
      }
      SearchOn(cells, size, k);
      TakenIsLinked(mem, first, cells, k, size);
      TakenNonempty(cells, k, size);
      NextBehind(mem, first, cells, k, size);
      Split(currBlock, size);
      mem := mem[currBlock := mem[currBlock].(used := true)];
      cells := Taken(cells, k, size);
      return currBlock + HEADER;
    }

    /** split, header write by header write. */
    method Split(block: nat, size: nat)
      requires block in mem && mem[block].size >= size && (mem[block].next != 0 ==> mem[block].next in mem)
      requires mem[block].size - size > HEADER ==> mem[block].next == 0 || mem[block].next > block + HEADER + size
      modifies `mem
      ensures mem == SplitHeaders(old(mem), block, size, true)
    {
      if mem[block].size - size > HEADER {
        var aux, rest := mem[block].next, block + HEADER + size;
        mem := mem[block := mem[block].(next := rest)];
        mem := mem[rest := Header(mem[block].size - size - HEADER, aux, block, false)];
        mem := mem[block := mem[block].(size := size)];
        if aux != 0 {
          mem := mem[aux := mem[aux].(prev := rest)];
        }
      }
    }

    /** The part of merge that frees the block and absorbs its successor. */
    method JoinNext(block: nat)
      requires JoinReady(mem, block)
      requires mem[block].next != 0 && !mem[mem[block].next].used ==> mem[mem[block].next].next != block
      modifies `mem
      ensures mem == JoinHeaders(old(mem), block)
    {
      mem := mem[block := mem[block].(used := false)];
      var next := mem[block].next;
      if next != 0 && !mem[next].used {
        mem := mem[block := mem[block].(size := mem[block].size + mem[next].size + HEADER)];
        mem := mem[block := mem[block].(next := mem[next].next)];
        if mem[block].next != 0 {
          mem := mem[mem[block].next := mem[mem[block].next].(prev := block)];
        }
      }
    }

    /** free of a pointer that malloc returned; `i` names its block. */
    method Free(pointer: nat, ghost i: nat)
      requires Valid() && i < |cells| && cells[i].used && pointer == first + Offset(cells, i) + HEADER
      modifies this
      ensures Valid() && first == old(first) && cells == Merged(old(cells), i)
    {
      Merge(pointer - HEADER, i);
    }

    method Merge(block: nat, ghost i: nat)
      requires Valid() && i < |cells| && block == At(first, cells, i)
      modifies this
      ensures Valid() && first == old(first) && cells == Merged(old(cells), i)
      decreases i
    {
      hide Offset, Linked, Joined, JoinHeaders;
      LinkedJoinReady(mem, first, cells, i);
      JoinedIsLinked(mem, first, cells, i);
      JoinedOffsets(cells, i);
      NextButOne(mem, first, cells, i);
      JoinNext(block);
      cells := Joined(cells, i);
      LinkedJoinReady(mem, first, cells, i);
      LinkedAt(mem, first, cells, i);
      if i > 0 { LinkedAt(mem, first, cells, i - 1); }
      var prev := mem[block].prev;
      if prev != 0 && !mem[prev].used {
        Merge(prev, i - 1);
      }
    }
  }

  lemma NextBehind(mem: Memory, base: nat, c: seq<Cell>, i: nat, size: nat)
    requires Linked(mem, base, c) && i < |c| && c[i].size >= size
    ensures var b := At(base, c, i);
            && b in mem && mem[b].size == c[i].size && (mem[b].next != 0 ==> mem[b].next in mem)
            && (mem[b].size - size > HEADER ==> mem[b].next == 0 || mem[b].next > b + HEADER + size)
  {
    hide Offset, Linked;
    LinkedAt(mem, base, c, i);
    OffsetStep(c, i);
  }

  lemma NextButOne(mem: Memory, base: nat, c: seq<Cell>, i: nat)
    requires Linked(mem, base, c) && i < |c|
    ensures var b := At(base, c, i);
            && JoinReady(mem, b)
            && (mem[b].next != 0 ==> mem[mem[b].next].next != b)
  {
    hide Offset, Linked;
    LinkedAt(mem, base, c, i);
    LinkedJoinReady(mem, base, c, i);
    if i + 1 < |c| {
      LinkedAt(mem, base, c, i + 1);
      if i + 2 < |c| { AtDistinct(base, c, i, i + 2); }
    }
  }

  lemma FirstAt(base: nat, c: seq<Cell>)
    ensures At(base, c, 0) == base
  {
  }

  lemma FitsNowhere(c: seq<Cell>, size: nat)
    requires c == []
    ensures FirstFit(c, size) == |c|
  {
  }

  lemma TakenNonempty(c: seq<Cell>, i: nat, size: nat)
    requires i < |c| && c[i].size >= size
    ensures Taken(c, i, size) != []
  {
  }

  lemma SearchOn(c: seq<Cell>, size: nat, k: nat)
    requires k < |c| && k <= FirstFit(c, size)
    ensures c[k].used || c[k].size < size ==> k + 1 <= FirstFit(c, size)
    ensures !c[k].used && c[k].size >= size ==> FirstFit(c, size) == k
  {
  }
}
