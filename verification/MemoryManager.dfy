/** Kernel/memoryManager.c: the buddy page allocator, its blocks and its runs. */
module MemoryManager {
  import opened Options
  import opened BuddyTree
  import opened BuddyMarks

  const PAGE_SIZE: nat := 4096

  // ------------------------------------------------------------ the blocks

  lemma OwnPage(m: nat, i: nat)
    requires Depth(i) <= m
    ensures Covers(m, i, Start(m, i))
  {
  }

  lemma DepthInTree(p: seq<Mark>, m: nat, i: nat)
    requires Tree(p, m) && i < |p|
    ensures Depth(i) <= m
  {
    TreeNode(p, m, i);
  }

  /** Two different live blocks share no page. */
  lemma LiveDisjoint(p: seq<Mark>, m: nat, strict: bool, a: nat, b: nat, page: nat)
    requires Marked(p, m, strict) && Live(p, a) && Live(p, b)
    requires Depth(a) <= m && Depth(b) <= m && Covers(m, a, page) && Covers(m, b, page)
    ensures a == b
  {
    hide Nodes, Covers, Up, NodeOk, Live;
    if Depth(a) <= Depth(b) {
      LiveAboveLive(p, m, strict, a, b, page);
    } else {
      LiveAboveLive(p, m, strict, b, a, page);
    }
  }

  lemma LiveAboveLive(p: seq<Mark>, m: nat, strict: bool, a: nat, b: nat, page: nat)
    requires Marked(p, m, strict) && Live(p, a) && Live(p, b)
    requires Depth(a) <= Depth(b) <= m && Covers(m, a, page) && Covers(m, b, page)
    ensures a == b
  {
    hide Nodes, Covers, Up, NodeOk, Live, Depth, Parent;
    Laminar(m, a, b, page);
    LiveInTree(p, a);
    LiveInTree(p, b);
    var k := Depth(b) - Depth(a);
    if k == 0 {
      UpHere(b);
    } else {
      UpStep(b, k - 1);
      InUseUp(p, m, strict, b, k - 1);
      assert NodeOk(p, a, strict);
      NothingBelowLive(p, a, Up(b, k - 1), strict);
    }
  }

  lemma NothingBelowLive(p: seq<Mark>, a: nat, c: nat, strict: bool)
    requires Live(p, a) && NodeOk(p, a, strict) && 0 < c < |p| && Parent(c) == a
    ensures p[c] == Free
  {
    hide Depth;
  }

  /** A run of pages that the caller could be given: no live block has a page of it. */
  ghost predicate Unoccupied(p: seq<Mark>, m: nat, n: nat)
    requires Depth(n) <= m
  {
    forall x: nat, page: nat :: Live(p, x) && Depth(x) <= m && Covers(m, x, page) ==> !Covers(m, n, page)
  }

  /** What may be handed out overlaps nothing that is handed out already. */
  lemma AvailableIsUnoccupied(p: seq<Mark>, m: nat, strict: bool, n: nat)
    requires Marked(p, m, strict) && Depth(n) <= m && Available(p, Depth(n), n)
    ensures Unoccupied(p, m, n)
  {
    hide Nodes, Covers, Up, NodeOk, Live, Depth, Parent, Open;
    forall x: nat, page: nat | Live(p, x) && Depth(x) <= m && Covers(m, x, page)
      ensures !Covers(m, n, page)
    {
      if Covers(m, n, page) {
        LiveInTree(p, x);
        if Depth(x) <= Depth(n) {
          Laminar(m, x, n, page);
          var k := Depth(n) - Depth(x);
          if k == 0 { UpHere(n); } else { OpenUp(p, n, k); }
        } else {
          Laminar(m, n, x, page);
          InUseUp(p, m, strict, x, Depth(x) - Depth(n));
        }
      }
    }
  }

  lemma {:induction false} OpenUp(p: seq<Mark>, n: nat, k: nat)
    requires n < |p| && Open(p, n) && 0 < k <= Depth(n)
    ensures Up(n, k) < |p| && p[Up(n, k)] != Used
  {
    if k > 1 {
      OpenUp(p, Parent(n), k - 1);
    } else {
      assert Up(n, 1) == Up(Parent(n), 0);
    }
  }

  /** In a strictly marked tree something is live below everything that is not free. */
  lemma {:induction false} LiveBelow(p: seq<Mark>, m: nat, i: nat) returns (x: nat, k: nat)
    requires Marked(p, m, true) && i < |p| && p[i] != Free
    ensures Live(p, x) && k <= Depth(x) && Up(x, k) == i
    decreases |p| - i
  {
    hide Nodes, Up, Depth, Parent;
    assert NodeOk(p, i, true);
    if IsPage(p, i) || (p[i] == Used && p[Left(i)] == Free) {
      x, k := i, 0;
      UpHere(i);
    } else {
      var c := if p[Left(i)] != Free then Left(i) else Right(i);
      x, k := LiveBelow(p, m, c);
      DepthOfChildren(i);
      ClimbOneMore(x, k, c);
      k := k + 1;
    }
  }

  lemma ClimbOneMore(x: nat, k: nat, c: nat)
    requires k <= Depth(x) && Up(x, k) == c && Depth(c) > 0
    ensures c > 0 && k + 1 <= Depth(x) && Up(x, k + 1) == Parent(c)
  {
    assert c > 0;
    UpStep(x, k);
  }

  /** Under a used node, on the way down to n, a live block is met, or n itself is used. */
  lemma {:induction false} LiveOnTheWay(p: seq<Mark>, m: nat, strict: bool, n: nat, k: nat) returns (a: nat, j: nat)
    requires Marked(p, m, strict) && n < |p| && k <= Depth(n) && p[Up(n, k)] == Used
    ensures j <= k && Up(n, j) == a && a < |p| && p[a] == Used && (j == 0 || Live(p, a))
    decreases k
  {
    hide Nodes, Up, Depth, Parent;
    a, j := Up(n, k), k;
    if k > 0 {
      assert NodeOk(p, a, strict);
      UpStep(n, k - 1);
      if !Live(p, a) {
        var c := Up(n, k - 1);
        BothHalvesUsed(p, strict, a, c);
        a, j := LiveOnTheWay(p, m, strict, n, k - 1);
      }
    } else {
      UpHere(n);
    }
  }

  lemma BothHalvesUsed(p: seq<Mark>, strict: bool, a: nat, c: nat)
    requires a < |p| && NodeOk(p, a, strict) && p[a] == Used && !Live(p, a) && 0 < c < |p| && Parent(c) == a
    ensures p[c] == Used
  {
    hide Depth;
  }

  lemma {:induction false} ClosedBySomeone(p: seq<Mark>, n: nat) returns (k: nat)
    requires n < |p| && !Open(p, n)
    ensures 0 < k <= Depth(n) && p[Up(n, k)] == Used
  {
    if p[Parent(n)] == Used {
      k := 1;
      assert Up(n, 1) == Up(Parent(n), 0);
    } else {
      k := ClosedBySomeone(p, Parent(n));
      k := k + 1;
    }
  }

  /**
   While nothing was ever freed, the marks tell the whole truth: a block is available exactly when no
   live block has a page of it.
   */
  lemma AvailableIffUnoccupied(p: seq<Mark>, m: nat, n: nat)
    requires Marked(p, m, true) && n < |p| && Depth(n) <= m
    ensures Available(p, Depth(n), n) <==> Unoccupied(p, m, n)
  {
    hide Nodes, Covers, Up, NodeOk, Live, Depth, Parent, Open, Start;
    if Available(p, Depth(n), n) {
      AvailableIsUnoccupied(p, m, true, n);
    } else {
      var x: nat, page: nat;
      if Open(p, n) {
        var k;
        x, k := LiveBelow(p, m, n);
        LiveInTree(p, x);
        DepthInTree(p, m, x);
        page := Start(m, x);
        OwnPage(m, x);
        CoversUp(m, x, k, page);
      } else {
        var k := ClosedBySomeone(p, n);
        var a, j := LiveOnTheWay(p, m, true, n, k);
        if j == 0 {
          UpHere(n);
          x, k := LiveBelow(p, m, n);
          LiveInTree(p, x);
          DepthInTree(p, m, x);
          page := Start(m, x);
          OwnPage(m, x);
          CoversUp(m, x, k, page);
        } else {
          x := a;
          DepthInTree(p, m, x);
          page := Start(m, n);
          OwnPage(m, n);
          CoversUp(m, n, j, page);
        }
      }
      assert Live(p, x) && Covers(m, x, page) && Covers(m, n, page);
    }
  }

  // ---------------------------------------------- the search as a walk

  /** What a depth-first search has still to look at when it has finished with node i. */
  function Rest(p: seq<Mark>, i: nat, levels: nat): Option<nat>
    requires i < |p| && |p| % 2 == 1
    decreases i
  {
    if i == 0 then None
    else if i % 2 == 1 then OrElse(Find(p, i + 1, levels), Rest(p, Parent(i), levels + 1))
    else Rest(p, Parent(i), levels + 1)
  }

  /** The answer of a search that stands at node i and has found nothing so far. */
  function FindFrom(p: seq<Mark>, i: nat, levels: nat): Option<nat>
    requires i < |p| && |p| % 2 == 1
  {
    OrElse(Find(p, i, levels), Rest(p, i, levels))
  }

  lemma Descend(p: seq<Mark>, i: nat, levels: nat)
    requires Right(i) < |p| && |p| % 2 == 1 && p[i] != Used && levels > 0
    ensures p[Left(i)] != Used ==> FindFrom(p, i, levels) == FindFrom(p, Left(i), levels - 1)
    ensures p[Left(i)] == Used ==> FindFrom(p, i, levels) == FindFrom(p, Right(i), levels - 1)
  {
    FindBelow(p, i, levels);
    RestOfChildren(p, i, levels);
    hide Find, Rest, Depth;
  }

  lemma FindBelow(p: seq<Mark>, i: nat, levels: nat)
    requires Right(i) < |p| && p[i] != Used && levels > 0
    ensures Find(p, i, levels) == OrElse(Find(p, Left(i), levels - 1), Find(p, Right(i), levels - 1))
    ensures p[Left(i)] == Used ==> Find(p, Left(i), levels - 1) == None
  {
  }

  lemma RestIs(p: seq<Mark>, i: nat, levels: nat)
    requires 0 < i < |p| && |p| % 2 == 1
    ensures i % 2 == 1 ==> i + 1 < |p| && Rest(p, i, levels) == OrElse(Find(p, i + 1, levels), Rest(p, Parent(i), levels + 1))
    ensures i % 2 == 0 ==> Rest(p, i, levels) == Rest(p, Parent(i), levels + 1)
  {
    hide Find;
  }

  lemma RestOfChildren(p: seq<Mark>, i: nat, levels: nat)
    requires Right(i) < |p| && |p| % 2 == 1 && levels > 0
    ensures Rest(p, Left(i), levels - 1) == OrElse(Find(p, Right(i), levels - 1), Rest(p, i, levels))
    ensures Rest(p, Right(i), levels - 1) == Rest(p, i, levels)
  {
    hide Find, Rest, Depth, Parent;
    DepthOfChildren(i);
    RestIs(p, Left(i), levels - 1);
    RestIs(p, Right(i), levels - 1);
    assert levels - 1 + 1 == levels && Right(i) == Left(i) + 1;
  }

  lemma NothingHere(p: seq<Mark>, i: nat, levels: nat)
    requires i < |p| && |p| % 2 == 1 && (p[i] == Used || (levels == 0 && p[i] != Free))
    ensures FindFrom(p, i, levels) == Rest(p, i, levels)
  {
  }

  /** How many nodes a search that stands at i may still visit. */
  function Work(i: nat, levels: nat): nat {
    Pow2(levels + 1) - 1 + WorkRest(i, levels)
  }

  function WorkRest(i: nat, levels: nat): nat
    decreases i
  {
    if i == 0 then 0
    else WorkRest(Parent(i), levels + 1) + if i % 2 == 1 then Pow2(levels + 1) - 1 else 0
  }

  lemma WorkDescends(i: nat, levels: nat)
    requires levels > 0
    ensures Work(Left(i), levels - 1) < Work(i, levels)
    ensures Work(Right(i), levels - 1) < Work(i, levels)
    ensures WorkRest(i, levels) < Work(i, levels)
  {
    DepthOfChildren(i);
    PowStep(levels);
  }

  /** How many times a page must be doubled to hold the bytes, counted from `from`. */
  function Exponent(bytes: nat, from: nat): (e: nat)
    ensures e >= from && bytes <= PAGE_SIZE * Pow2(e)
    ensures e > from ==> bytes > PAGE_SIZE * Pow2(e - 1)
    decreases bytes - PAGE_SIZE * Pow2(from)
  {
    if bytes <= PAGE_SIZE * Pow2(from) then from else Exponent(bytes, from + 1)
  }

  lemma ExponentBound(bytes: nat, from: nat, m: nat)
    requires bytes <= PAGE_SIZE * Pow2(m) && from <= m
    ensures Exponent(bytes, from) <= m
    decreases m - from
  {
    if bytes > PAGE_SIZE * Pow2(from) {
      ExponentBound(bytes, from + 1, m);
    }
  }

  /** The depth at which blocks for this many bytes lie. */
  function Level(bytes: nat, m: nat): (d: nat)
    requires bytes <= PAGE_SIZE * Pow2(m)
    ensures d <= m
  {
    ExponentBound(bytes, 0, m);
    m - Exponent(bytes, 0)
  }

  /** The block that a request gets, if it gets one. */
  function Answer(p: seq<Mark>, m: nat, bytes: nat): (r: Option<nat>)
    requires Tree(p, m)
    ensures r.Some? ==> r.value < |p| && Depth(r.value) <= m && p[r.value] == Free && Open(p, r.value)
  {
    if 0 < bytes <= PAGE_SIZE * Pow2(m) then
      FindIsLowest(p, m, Level(bytes, m));
      Find(p, 0, Level(bytes, m))
    else None
  }

  function AfterGet(p: seq<Mark>, m: nat, bytes: nat): (q: seq<Mark>)
    requires Tree(p, m)
    ensures |q| == |p|
  {
    OddTree(p, m);
    match Answer(p, m, bytes)
    case None => p
    case Some(n) => Allocated(p, n)
  }

  // ----------------------------------------------------- memoryManager_t

  /** log2 of the source: the number of halvings down to 1. */
  method Log2(number: nat) returns (power: nat)
    requires number >= 1
    ensures Pow2(power) <= number < Pow2(power + 1)
  {
    var rest := number;
    power := 0;
    while rest - 1 > 0
      invariant rest >= 1
      invariant rest * Pow2(power) <= number < (rest + 1) * Pow2(power)
      decreases rest
    {
      HalveStep(rest, Pow2(power), number);
      PowStep(power);
      rest := rest / 2;
      power := power + 1;
    }
  }

  lemma HalveStep(rest: nat, p: nat, number: nat)
    requires rest * p <= number < (rest + 1) * p
    ensures (rest / 2) * (2 * p) <= number < (rest / 2 + 1) * (2 * p)
  {
    var h := rest / 2;
    assert rest == 2 * h || rest == 2 * h + 1;
    assert (2 * h) * p == h * (2 * p);
    assert (2 * h + 1) * p == h * (2 * p) + p;
    assert (2 * h + 2) * p == (h + 1) * (2 * p);
  }

  lemma {:induction false} PowSum(a: nat, b: nat)
    ensures Pow2(a) * Pow2(b) == Pow2(a + b)
  {
    if a > 0 {
      PowSum(a - 1, b);
      assert Pow2(a) * Pow2(b) == 2 * (Pow2(a - 1) * Pow2(b));
    }
  }

  lemma LogOfPower(k: nat, power: nat)
    requires Pow2(power) <= Pow2(k) < Pow2(power + 1)
    ensures power == k
  {
    if power < k { Pow2Monotone(power + 1, k); }
    if k < power { Pow2Monotone(k, power - 1); }
  }

  /** log2(memory) - log2(page) is the order of a memory of 2^m pages. */
  lemma OrderOfMemory(m: nat, all: nat, page: nat)
    requires Pow2(all) <= PAGE_SIZE * Pow2(m) < Pow2(all + 1) && Pow2(page) <= PAGE_SIZE < Pow2(page + 1)
    ensures page == 12 && all == m + page
  {
    assert Pow2(12) == PAGE_SIZE;
    LogOfPower(12, page);
    PowSum(12, m);
    LogOfPower(12 + m, all);
  }

  lemma NextIsBuddy(p: seq<Mark>, i: nat, levels: nat)
    requires i < |p| && |p| % 2 == 1 && i % 2 == 1
    ensures i + 1 < |p| && Depth(i + 1) == Depth(i)
    ensures Rest(p, i, levels) == FindFrom(p, i + 1, levels)
    ensures WorkRest(i, levels) == Work(i + 1, levels)
  {
    hide Find, Pow2;
    assert Parent(i + 1) == Parent(i);
    assert Rest(p, i + 1, levels) == Rest(p, Parent(i), levels + 1);
    assert WorkRest(i + 1, levels) == WorkRest(Parent(i), levels + 1);
  }

  lemma ClimbOne(p: seq<Mark>, m: nat, i: nat, levels: nat)
    requires i < |p| && |p| % 2 == 1 && i % 2 == 0 && Depth(i) <= m
    ensures i == 0 ==> Depth(i) == 0 && Rest(p, i, levels) == None
    ensures i > 0 ==>
              && (i + 1) / 2 - 1 == Parent(i) && Depth(i) == Depth(Parent(i)) + 1
              && Size(m, Depth(Parent(i))) == 2 * Size(m, Depth(i))
              && Rest(p, i, levels) == Rest(p, Parent(i), levels + 1)
              && WorkRest(i, levels) == WorkRest(Parent(i), levels + 1)
  {
    hide Find, Pow2, Size, Rest, WorkRest, Depth;
    if i > 0 {
      StartStep(m, i);
      SizeStep(m, Depth(Parent(i)));
    } else {
      RootStarts(m);
    }
    RestOfRight(p, i, levels);
  }

  lemma RestOfRight(p: seq<Mark>, i: nat, levels: nat)
    requires i < |p| && |p| % 2 == 1 && i % 2 == 0
    ensures i == 0 ==> Rest(p, i, levels) == None
    ensures i > 0 ==> Rest(p, i, levels) == Rest(p, Parent(i), levels + 1)
    ensures i > 0 ==> WorkRest(i, levels) == WorkRest(Parent(i), levels + 1)
    ensures i > 0 ==> (i + 1) / 2 - 1 == Parent(i)
  {
  }

  lemma WorkShrinks(i: nat, levels: nat)
    ensures WorkRest(i, levels) < Work(i, levels)
  {
  }

  class Memory {
    const memoryAvailable: nat
    const memoryBaseAddress: nat
    const maxOrder: nat
    const pages: array<Mark>

    ghost predicate Valid()
      reads pages
    {
      && memoryAvailable == PAGE_SIZE * Pow2(maxOrder)
      && memoryBaseAddress > 0
      && Tree(pages[..], maxOrder)
    }

    /** init_memoryManager over 2^m pages: the marks come first, the pages behind them. */
    constructor (baseAddress: nat, memAmount: nat, ghost m: nat)
      requires memAmount == PAGE_SIZE * Pow2(m)
      ensures Valid() && fresh(pages) && maxOrder == m && memoryAvailable == memAmount
      ensures forall i :: 0 <= i < pages.Length ==> pages[i] == Free
    {
      memoryAvailable := memAmount;
      var all := Log2(memAmount);
      var page := Log2(PAGE_SIZE);
      OrderOfMemory(m, all, page);
      maxOrder := all - page;
      var nodes := Nodes(all - page);
      memoryBaseAddress := baseAddress + nodes;
      pages := new Mark[nodes];
      new;
      var i := 0;
      while i < nodes
        invariant 0 <= i <= nodes == pages.Length
        invariant forall j :: 0 <= j < i ==> pages[j] == Free
      {
        pages[i] := Free;
        i := i + 1;
      }
    }

    /** pageSizeMultiple: the block size that the bytes are rounded up to. */
    method PageSizeMultiple(bytes: nat) returns (multiple: nat)
      requires Valid() && bytes <= memoryAvailable
      ensures multiple == PAGE_SIZE * Pow2(Exponent(bytes, 0))
    {
      multiple := PAGE_SIZE;
      ghost var j := 0;
      ExponentBound(bytes, 0, maxOrder);
      if bytes > PAGE_SIZE {
        while multiple <= memoryAvailable && bytes > multiple
          invariant multiple == PAGE_SIZE * Pow2(j) && Exponent(bytes, 0) == Exponent(bytes, j)
          decreases if bytes > multiple then bytes - multiple else 0
        {
          multiple := multiple * 2;
          j := j + 1;
        }
      }
    }

    /** nextPagesIndexToSearch; a negative index says that the tree is exhausted. */
    method NextPagesIndexToSearch(pagesIndex: nat, currentOrder: nat, currentBlockSize: nat, ghost d: nat)
      returns (i: int, order: int, blockSize: nat)
      requires Valid() && pagesIndex < pages.Length && Depth(pagesIndex) == currentOrder <= d <= maxOrder
      requires currentBlockSize == PAGE_SIZE * Size(maxOrder, currentOrder)
      ensures pages.Length % 2 == 1
      ensures i < 0 ==> Rest(pages[..], pagesIndex, d - currentOrder) == None
      ensures i >= 0 ==>
                && i < pages.Length && Depth(i) == order <= currentOrder
                && blockSize == PAGE_SIZE * Size(maxOrder, order)
                && Rest(pages[..], pagesIndex, d - currentOrder) == FindFrom(pages[..], i, d - order)
                && Work(i, d - order) < Work(pagesIndex, d - currentOrder)
    {
      hide Nodes, Depth, Find, Pow2, Size, Rest, FindFrom, Work, WorkRest;
      ghost var p := pages[..];
      BuddyInTree(p, maxOrder, pagesIndex);
      i, order, blockSize := pagesIndex, currentOrder, currentBlockSize;
      WorkShrinks(pagesIndex, d - currentOrder);
      if pagesIndex % 2 == 1 {
        NextIsBuddy(p, pagesIndex, d - order);
        i := pagesIndex + 1;
      } else {
        var done := false;
        while i >= 0 && !done
          invariant i < 0 ==> !done && Rest(p, pagesIndex, d - currentOrder) == None
          invariant i >= 0 ==> i < pages.Length && 0 <= order <= currentOrder && Depth(i) == order
          invariant i >= 0 ==> blockSize == PAGE_SIZE * Size(maxOrder, order)
          invariant i >= 0 && !done ==> i % 2 == 0
          invariant i >= 0 && !done ==> Rest(p, pagesIndex, d - currentOrder) == Rest(p, i, d - order)
          invariant i >= 0 && !done ==> WorkRest(pagesIndex, d - currentOrder) == WorkRest(i, d - order)
          invariant done ==> Rest(p, pagesIndex, d - currentOrder) == FindFrom(p, i, d - order)
          invariant done ==> Work(i, d - order) == WorkRest(pagesIndex, d - currentOrder)
          decreases !done, i
        {
          ClimbOne(p, maxOrder, i, d - order);
          order := order - 1;
          blockSize := blockSize * 2;
          i := (i + 1) / 2 - 1;
          if i % 2 == 1 && i > 0 {
            NextIsBuddy(p, i, d - order);
            i := i + 1;
            done := true;
          }
        }
      }
    }
  
    method MarkUsedNodes(pagesIndex: nat)
      requires Valid() && pagesIndex < pages.Length
      modifies pages
      ensures Valid() && pages.Length % 2 == 1
      ensures pages[..] == MarkUp(old(pages[..]), pagesIndex)
      decreases pagesIndex
    {
      hide Nodes, Pow2;
      BuddyInTree(pages[..], maxOrder, pagesIndex);
      if pagesIndex > 0 && pages[Buddy(pagesIndex)] == Used {
        var parent := Parent(pagesIndex);
        pages[parent] := Used;
        MarkUsedNodes(parent);
      } else {
        var i: nat := pagesIndex;
        ghost var was := pages[..];
        while i > 0
          invariant i <= pagesIndex && pages.Length == |was|
          invariant SplitUp(was, pagesIndex) == SplitUp(pages[..], i)
        {
          i := Parent(i);
          pages[i] := Split;
        }
      }
    }

    /** getOffsetFromBaseAddress: None is the source's ERROR. */
    method GetOffsetFromBaseAddress(bytes: nat) returns (r: Option<nat>)
      requires Valid() && bytes <= memoryAvailable
      modifies pages
      ensures Valid() && pages.Length > 0 && pages.Length % 2 == 1
      ensures var was, d := old(pages[..]), Level(bytes, maxOrder);
              match Find(was, 0, d)
              case None => r == None && pages[..] == was
              case Some(n) => n < |was| && Depth(n) <= maxOrder && r == Some(Start(maxOrder, n) * PAGE_SIZE)
                              && pages[..] == Allocated(was, n)
    {
      hide Nodes, Depth, Find, Pow2, Size, Rest, FindFrom, Work, WorkRest, Start, MarkUp;
      ghost var p, m, d := pages[..], maxOrder, Level(bytes, maxOrder);
      SearchBegins(p, m, d);
      var pagesIndex: int, currentOrder: int, currentBlockSize := 0, 0, memoryAvailable;
      var neededBlockSize := PageSizeMultiple(bytes);
      assert neededBlockSize == PAGE_SIZE * Size(m, d) by { NeededSize(bytes, m); }
      var memoryAllocated := false;
      while pagesIndex >= 0 && !memoryAllocated
        invariant 0 <= pagesIndex < pages.Length && Depth(pagesIndex) == currentOrder <= d
        invariant currentBlockSize == PAGE_SIZE * Size(m, currentOrder)
        invariant !memoryAllocated ==> pages[..] == p && FindFrom(p, pagesIndex, d - currentOrder) == Find(p, 0, d)
        invariant memoryAllocated ==>
                    pages.Length == |p| && Find(p, 0, d) == Some(pagesIndex) && pages[..] == Allocated(p, pagesIndex)
        decreases !memoryAllocated, Work(pagesIndex, d - currentOrder)
      {
        SameSize(m, currentOrder, d);
        if pages[pagesIndex] != Used {
          if neededBlockSize == currentBlockSize {
            if pages[pagesIndex] == Free {
              FoundHere(p, pagesIndex);
              pages[pagesIndex] := Used;
              assert pages[..] == p[pagesIndex := Used];
              MarkUsedNodes(pagesIndex);
              memoryAllocated := true;
            } else {
              NothingHere(p, pagesIndex, d - currentOrder);
              var i, order, size := NextPagesIndexToSearch(pagesIndex, currentOrder, currentBlockSize, d);
              if i < 0 {
                return None;
              }
              pagesIndex, currentOrder, currentBlockSize := i, order, size;
            }
          } else {
            TreeNode(p, m, pagesIndex);
            DepthOfChildren(pagesIndex);
            Descend(p, pagesIndex, d - currentOrder);
            WorkDescends(pagesIndex, d - currentOrder);
            SizeStep(m, currentOrder);
            currentOrder := currentOrder + 1;
            currentBlockSize := currentBlockSize / 2;
            pagesIndex := if pages[Left(pagesIndex)] != Used then Left(pagesIndex) else Right(pagesIndex);
          }
        } else {
          NothingHere(p, pagesIndex, d - currentOrder);
          var i, order, size := NextPagesIndexToSearch(pagesIndex, currentOrder, currentBlockSize, d);
          if i < 0 {
            return None;
          }
          pagesIndex, currentOrder, currentBlockSize := i, order, size;
        }
      }
      r := Some(CalculateOffset(pagesIndex, currentOrder));
    }

    /** (index + 1 - (1 << order)) << (maxOrder - order), in pages. */
    function CalculateOffset(pagesIndex: nat, order: nat): (offset: nat)
      requires Depth(pagesIndex) == order <= maxOrder
      ensures offset == Start(maxOrder, pagesIndex) * PAGE_SIZE
    {
      StartFromIndex(maxOrder, pagesIndex);
      var skippedPages := (pagesIndex + 1 - Pow2(order)) * Pow2(maxOrder - order);
      skippedPages * PAGE_SIZE
    }

    /** getMemory: address 0 is NULL. */
    method GetMemory(bytes: nat) returns (address: nat)
      requires Valid()
      modifies pages
      ensures Valid() && pages[..] == AfterGet(old(pages[..]), maxOrder, bytes)
      ensures address == match Answer(old(pages[..]), maxOrder, bytes)
                         case None => 0
                         case Some(n) => memoryBaseAddress + Start(maxOrder, n) * PAGE_SIZE
      ensures bytes == 0 || bytes > memoryAvailable ==> address == 0 && pages[..] == old(pages[..])
    {
      hide Nodes, Pow2, Find, Start, MarkUp, Depth;
      ghost var p := pages[..];
      OddTree(p, maxOrder);
      FindIsLowest(p, maxOrder, 0);
      if bytes <= 0 || bytes > memoryAvailable {
        return 0;
      }
      FindIsLowest(p, maxOrder, Level(bytes, maxOrder));
      var offset := GetOffsetFromBaseAddress(bytes);
      if offset == None {
        return 0;
      }
      return memoryBaseAddress + offset.value;
    }

    /** freeMemory; addresses below the base wrap around to page numbers out of range. */
    method FreeMemory(addressToFree: nat) returns (ok: bool)
      requires Valid()
      modifies pages
      ensures Valid()
      ensures var page := ((addressToFree - memoryBaseAddress) % 0x1_0000_0000_0000_0000) / PAGE_SIZE;
              (pages[..], ok) == if addressToFree == 0 || page >= Pow2(maxOrder) then (old(pages[..]), false)
                                 else Freed(old(pages[..]), maxOrder, page)
    {
      hide Nodes, Pow2;
      if addressToFree == 0 {
        return false;
      }
      var skippedPages := ((addressToFree - memoryBaseAddress) % 0x1_0000_0000_0000_0000) / PAGE_SIZE;
      var pagesPerOrder: nat := memoryAvailable / PAGE_SIZE;
      if skippedPages >= pagesPerOrder {
        return false;
      }
      ghost var goal := Freed(pages[..], maxOrder, skippedPages);
      var pagesIndex: nat, pagesSkippedAtBranch: nat := 0, 0;
      while pagesIndex < pages.Length
        invariant pages.Length == Nodes(maxOrder)
        invariant goal == FreeWalk(pages[..], pagesIndex, pagesSkippedAtBranch, pagesPerOrder, skippedPages)
        decreases pages.Length - pagesIndex
      {
        var leftChild, rightChild := Left(pagesIndex), Right(pagesIndex);
        if pages[pagesIndex] == Used {
          pages[pagesIndex] := Free;
          if leftChild < pages.Length && rightChild < pages.Length
             && pages[leftChild] == Free && pages[rightChild] == Free {
            return true;
          }
        }
        pagesPerOrder := pagesPerOrder / 2;
        if skippedPages < pagesSkippedAtBranch + pagesPerOrder {
          pagesIndex := leftChild;
        } else {
          pagesSkippedAtBranch := pagesSkippedAtBranch + pagesPerOrder;
          pagesIndex := rightChild;
        }
      }
      return false;
    }
  }

  lemma SearchBegins(p: seq<Mark>, m: nat, d: nat)
    requires Tree(p, m) && d <= m
    ensures 0 < |p| && |p| % 2 == 1 && Depth(0) == 0 && Size(m, 0) == Pow2(m)
    ensures FindFrom(p, 0, d) == Find(p, 0, d)
  {
    TreeNode(p, m, 0);
    OddTree(p, m);
  }

  lemma NeededSize(bytes: nat, m: nat)
    requires bytes <= PAGE_SIZE * Pow2(m)
    ensures PAGE_SIZE * Pow2(Exponent(bytes, 0)) == PAGE_SIZE * Size(m, Level(bytes, m))
  {
    ExponentBound(bytes, 0, m);
  }

  /** Blocks of two depths have the same size only if the depths are the same. */
  lemma SameSize(m: nat, a: nat, b: nat)
    requires a <= b <= m
    ensures a < b ==> Size(m, a) > Size(m, b)
  {
    if a < b {
      SizeStep(m, a);
      Pow2Monotone(m - b, m - (a + 1));
    }
  }

  lemma FoundHere(p: seq<Mark>, i: nat)
    requires i < |p| && |p| % 2 == 1 && p[i] == Free
    ensures FindFrom(p, i, 0) == Some(i)
  {
  }

  /** The address that getMemory returns for a block is the one by which freeMemory finds its first page. */
  lemma AddressLeadsToBlock(m: nat, n: nat, base: nat)
    requires Depth(n) <= m && 0 < base && PAGE_SIZE * Pow2(m) < 0x1_0000_0000
    ensures var address := base + Start(m, n) * PAGE_SIZE;
            var page := ((address - base) % 0x1_0000_0000_0000_0000) / PAGE_SIZE;
            address != 0 && page == Start(m, n) && page < Pow2(m) && Covers(m, n, page)
  {
    hide Start, Pow2, Depth, Size;
    InRange(m, n);
    OwnPage(m, n);
  }

  // ------------------------------------------------------------- the runs

  datatype Call = Get(bytes: nat) | Release(block: nat)

  /** freeMemory may be asked for a live block, and safely so if its parent is not used. */
  predicate Safe(p: seq<Mark>, m: nat, c: Call) {
    c.Release? ==>
      && Live(p, c.block) && Depth(c.block) <= m
      && (c.block > 0 ==> p[Parent(c.block)] != Used)
  }

  function After(p: seq<Mark>, m: nat, c: Call): (q: seq<Mark>)
    requires Tree(p, m) && Safe(p, m, c)
    ensures |q| == |p|
  {
    match c
    case Get(bytes) => AfterGet(p, m, bytes)
    case Release(block) => Freed(p, m, Start(m, block)).0
  }

  /** Whether p becomes q by the calls of a run, all of them safe. */
  ghost predicate Runs(p: seq<Mark>, m: nat, calls: seq<Call>, q: seq<Mark>)
    decreases calls
  {
    if calls == [] then p == q
    else Tree(p, m) && Safe(p, m, calls[0]) && Runs(After(p, m, calls[0]), m, calls[1..], q)
  }

  ghost predicate Unused(p: seq<Mark>, m: nat) {
    Tree(p, m) && forall i :: 0 <= i < |p| ==> p[i] == Free
  }

  lemma UnusedIsMarked(p: seq<Mark>, m: nat)
    requires Unused(p, m)
    ensures Marked(p, m, true)
  {
    forall i: nat | i < |p|
      ensures NodeOk(p, i, true)
    {
      TreeNode(p, m, i);
    }
  }

  lemma AfterKeeps(p: seq<Mark>, m: nat, strict: bool, c: Call)
    requires Marked(p, m, strict) && Safe(p, m, c) && (strict ==> c.Get?)
    ensures Marked(After(p, m, c), m, strict)
    ensures c.Get? && Answer(p, m, c.bytes) == None ==> After(p, m, c) == p
    ensures c.Get? && Answer(p, m, c.bytes).Some? ==>
              var n := Answer(p, m, c.bytes).value;
              !Live(p, n) && forall x :: Live(After(p, m, c), x) <==> Live(p, x) || x == n
    ensures c.Release? ==>
              forall x :: Live(After(p, m, c), x) <==> Live(p, x) && x != c.block
  {
    hide Nodes, Depth, Find, Start, MarkUp, FreeWalk, Live, NodeOk, Open, Covers;
    match c
    case Get(bytes) =>
      var r := Answer(p, m, bytes);
      OddTree(p, m);
      if r.Some? {
        AllocatedKeeps(p, m, strict, r.value);
      }
    case Release(block) =>
      if strict {
        assert false;
      } else {
        OwnPage(m, block);
        FreedKeeps(p, m, block, Start(m, block));
      }
  }

  /**
   In every run of getMemory and safe freeMemory calls the tree stays well marked, so that the live
   blocks, which change only as the calls say, never share a page.
   */
  lemma {:induction false} RunsKeep(p: seq<Mark>, m: nat, calls: seq<Call>, q: seq<Mark>, strict: bool)
    requires Marked(p, m, strict) && Runs(p, m, calls, q)
    requires strict ==> forall c :: c in calls ==> c.Get?
    ensures Marked(q, m, strict)
    ensures forall a: nat, b: nat, page: nat ::
              (Live(q, a) && Live(q, b) && Depth(a) <= m && Depth(b) <= m && Covers(m, a, page) && Covers(m, b, page)
               ==> a == b)
    decreases calls
  {
    hide Nodes, Depth, After, Live, NodeOk, Covers, Safe;
    if calls == [] {
      forall a: nat, b: nat, page: nat | Live(q, a) && Live(q, b) && Depth(a) <= m && Depth(b) <= m
              && Covers(m, a, page) && Covers(m, b, page)
        ensures a == b
      {
        LiveDisjoint(q, m, strict, a, b, page);
      }
    } else {
      AfterKeeps(p, m, strict, calls[0]);
      RunsKeep(After(p, m, calls[0]), m, calls[1..], q, strict);
    }
  }

  lemma StartOrder(m: nat, a: nat, b: nat)
    requires Depth(a) == Depth(b) <= m && a <= b
    ensures Start(m, a) <= Start(m, b)
  {
    hide Start, Size, Pow2, Depth;
    StartFromIndex(m, a);
    StartFromIndex(m, b);
    var s, base := Size(m, Depth(a)), Pow2(Depth(a));
    Multiplied(a + 1 - base, b + 1 - base, s);
  }

  lemma Multiplied(x: int, y: int, s: nat)
    requires x <= y
    ensures x * s <= y * s
  {
  }

  /**
   After any run of getMemory calls on an unused memory, the next one is given the lowest aligned run
   of pages, of the smallest block size that is large enough, in which no page is handed out; it fails
   only if there is no such run.
   */
  lemma GetIsLowestUnoccupied(p: seq<Mark>, m: nat, calls: seq<Call>, q: seq<Mark>, bytes: nat)
    requires Unused(p, m) && Runs(p, m, calls, q) && forall c :: c in calls ==> c.Get?
    requires 0 < bytes <= PAGE_SIZE * Pow2(m)
    ensures Tree(q, m)
    ensures var r, d := Answer(q, m, bytes), Level(bytes, m);
            && (r.Some? ==> Depth(r.value) == d && Unoccupied(q, m, r.value))
            && (forall n: nat :: n < |q| && Depth(n) == d && Unoccupied(q, m, n) ==>
                  r.Some? && Start(m, r.value) <= Start(m, n))
  {
    hide Nodes, Depth, Start, NodeOk, Live, Find, Runs, Unoccupied, Pow2;
    UnusedIsMarked(p, m);
    RunsKeep(p, m, calls, q, true);
    var r, d := Answer(q, m, bytes), Level(bytes, m);
    FindIsLowest(q, m, d);
    if r.Some? {
      AvailableIffUnoccupied(q, m, r.value);
    }
    forall n: nat | n < |q| && Depth(n) == d && Unoccupied(q, m, n)
      ensures r.Some? && Start(m, r.value) <= Start(m, n)
    {
      AvailableIffUnoccupied(q, m, n);
      StartOrder(m, r.value, n);
    }
  }
}
