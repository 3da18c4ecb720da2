/**
 Kernel/memoryManager.c: what getMemory hands out once blocks have been freed, and what a free does to
 it whose block lies under a used parent.
 */
module MemoryReuse {
  import opened Options
  import opened BuddyTree
  import opened BuddyMarks
  import opened MemoryManager

  // ------------------------------------------------- what may be handed out

  /** Below everything that is used something is live. */
  lemma {:induction false} LiveBelowUsed(p: seq<Mark>, m: nat, strict: bool, i: nat) returns (x: nat, k: nat)
    requires Marked(p, m, strict) && i < |p| && p[i] == Used
    ensures Live(p, x) && k <= Depth(x) && Up(x, k) == i
    decreases |p| - i
  {
    hide Nodes, Up, Depth, Parent;
    assert NodeOk(p, i, strict);
    if Live(p, i) {
      x, k := i, 0;
      UpHere(i);
    } else {
      var c := Left(i);
      x, k := LiveBelowUsed(p, m, strict, c);
      DepthOfChildren(i);
      ClimbOneMore(x, k, c);
      k := k + 1;
    }
  }

  /** A live block above or below a node has a page of it. */
  lemma LiveBelowOccupies(p: seq<Mark>, m: nat, n: nat, x: nat, k: nat)
    requires Tree(p, m) && n < |p| && Depth(n) <= m && Live(p, x) && k <= Depth(x) && Up(x, k) == n
    ensures !Unoccupied(p, m, n)
  {
    hide Nodes, Depth, Start, Up, Live, Covers, Size;
    LiveInTree(p, x);
    DepthInTree(p, m, x);
    OwnPage(m, x);
    CoversUp(m, x, k, Start(m, x));
  }

  lemma LiveAboveOccupies(p: seq<Mark>, m: nat, n: nat, x: nat, k: nat)
    requires Tree(p, m) && n < |p| && Depth(n) <= m && Live(p, x) && k <= Depth(n) && Up(n, k) == x
    ensures !Unoccupied(p, m, n)
  {
    hide Nodes, Depth, Start, Up, Live, Covers, Size;
    LiveInTree(p, x);
    DepthInTree(p, m, x);
    OwnPage(m, n);
    CoversUp(m, n, k, Start(m, n));
  }

  /**
   In every well-marked tree, however it came about: a block may be handed out exactly if no live block
   has a page of it and it is not marked SPLIT.
   */
  lemma AvailableIffUnsplit(p: seq<Mark>, m: nat, n: nat)
    requires Marked(p, m, false) && n < |p| && Depth(n) <= m
    ensures Available(p, Depth(n), n) <==> Unoccupied(p, m, n) && p[n] != Split
    ensures Unoccupied(p, m, n) ==> p[n] != Used
  {
    hide Nodes, Covers, Up, NodeOk, Live, Depth, Parent, Open, Start, Unoccupied;
    if Available(p, Depth(n), n) {
      AvailableIsUnoccupied(p, m, false, n);
    }
    if p[n] == Used {
      var x, k := LiveBelowUsed(p, m, false, n);
      LiveBelowOccupies(p, m, n, x, k);
    } else if p[n] == Free && !Open(p, n) {
      var k := ClosedBySomeone(p, n);
      var a, j := LiveOnTheWay(p, m, false, n, k);
      UpHere(n);
      LiveAboveOccupies(p, m, n, a, j);
    }
  }

  /** A run of pages of the size that the request needs, of which nothing is handed out. */
  ghost predicate Candidate(p: seq<Mark>, m: nat, bytes: nat, n: nat)
    requires bytes <= PAGE_SIZE * Pow2(m)
  {
    n < |p| && Depth(n) == Level(bytes, m) && Unoccupied(p, m, n)
  }

  /** getMemory answers with the lowest candidate that is not marked SPLIT, and with none if all are. */
  lemma AnswerIsLowestUnsplit(p: seq<Mark>, m: nat, bytes: nat)
    requires Marked(p, m, false) && 0 < bytes <= PAGE_SIZE * Pow2(m)
    ensures var r := Answer(p, m, bytes);
            && (r.Some? ==> Candidate(p, m, bytes, r.value) && p[r.value] != Split)
            && (forall n: nat :: Candidate(p, m, bytes, n) && p[n] != Split ==> r.Some? && Start(m, r.value) <= Start(m, n))
  {
    hide Nodes, Depth, Start, NodeOk, Live, Find, Unoccupied, Pow2, Level, Exponent;
    var r, d := Answer(p, m, bytes), Level(bytes, m);
    FindIsLowest(p, m, d);
    if r.Some? { AvailableIffUnsplit(p, m, r.value); }
    forall n: nat | Candidate(p, m, bytes, n) && p[n] != Split
      ensures r.Some? && Start(m, r.value) <= Start(m, n)
    {
      AvailableIffUnsplit(p, m, n);
      StartOrder(m, r.value, n);
    }
  }

  /**
   So the answer is the lowest candidate exactly if no candidate that is marked SPLIT lies below all the
   others, and a request fails exactly if all its candidates are marked SPLIT.
   */
  lemma AnswerIsLowestIff(p: seq<Mark>, m: nat, bytes: nat)
    requires Marked(p, m, false) && 0 < bytes <= PAGE_SIZE * Pow2(m)
    ensures var r := Answer(p, m, bytes);
            && ((forall n: nat :: Candidate(p, m, bytes, n) ==> r.Some? && Start(m, r.value) <= Start(m, n))
                <==> (forall n: nat :: Candidate(p, m, bytes, n) && p[n] == Split ==>
                        exists u: nat :: Candidate(p, m, bytes, u) && p[u] != Split && Start(m, u) <= Start(m, n)))
            && (r == None <==> forall n: nat :: Candidate(p, m, bytes, n) ==> p[n] == Split)
  {
    hide Nodes, Depth, Start, NodeOk, Candidate, Pow2, Answer;
    AnswerIsLowestUnsplit(p, m, bytes);
    CandidateInTree(p, m, bytes);
    var r := Answer(p, m, bytes);
    if r.Some? { assert Candidate(p, m, bytes, r.value) && p[r.value] != Split; }
  }

  lemma CandidateInTree(p: seq<Mark>, m: nat, bytes: nat)
    requires bytes <= PAGE_SIZE * Pow2(m)
    ensures forall n: nat :: Candidate(p, m, bytes, n) ==> n < |p| && Depth(n) <= m
  {
  }

  // ------------------------------------------------- where SPLIT marks come from

  /** n lies above y, not being y. */
  predicate Above(n: nat, y: nat)
    decreases y
  {
    y > 0 && (Parent(y) == n || Above(n, Parent(y)))
  }

  lemma {:induction false} AboveIsSmaller(n: nat, y: nat)
    requires Above(n, y)
    ensures n < y
    decreases y
  {
    if Parent(y) != n { AboveIsSmaller(n, Parent(y)); }
  }

  lemma {:induction false} AboveIsUp(n: nat, y: nat) returns (k: nat)
    requires Above(n, y)
    ensures 0 < k <= Depth(y) && Up(y, k) == n
    decreases y
  {
    UpStepOne(y);
    if Parent(y) == n {
      k := 1;
    } else {
      k := AboveIsUp(n, Parent(y));
      k := k + 1;
    }
  }

  lemma {:induction false} AboveIsOpen(p: seq<Mark>, n: nat, y: nat)
    requires Above(n, y) && y < |p| && Open(p, y)
    ensures n < |p| && p[n] != Used
    decreases y
  {
    if Parent(y) != n { AboveIsOpen(p, n, Parent(y)); }
  }

  lemma AboveStep(n: nat, y: nat)
    requires y > 0
    ensures Above(n, y) <==> Parent(y) == n || Above(n, Parent(y))
  {
  }

  lemma BuddyInArray(p: seq<Mark>, i: nat)
    requires 0 < i < |p| && |p| % 2 == 1
    ensures Buddy(i) < |p|
  {
  }

  /** Marking a block touches the block and the nodes above it only. */
  lemma {:induction false} SplitUpFrame(p: seq<Mark>, i: nat, n: nat)
    requires i < |p| && n < |p| && !Above(n, i)
    ensures SplitUp(p, i)[n] == p[n]
    decreases i
  {
    hide Parent, Above;
    if i > 0 { AboveStep(n, i); }
    if i > 0 { SplitUpFrame(p[Parent(i) := Split], Parent(i), n); }
  }

  lemma {:induction false} MarkUpFrame(p: seq<Mark>, i: nat, n: nat)
    requires i < |p| && |p| % 2 == 1 && n < |p| && !Above(n, i)
    ensures MarkUp(p, i)[n] == p[n]
    decreases i
  {
    hide Parent, Buddy, SplitUp, Above;
    if i > 0 {
      AboveStep(n, i);
      BuddyInArray(p, i);
    }
    if i > 0 && p[Buddy(i)] == Used {
      MarkUpFrame(p[Parent(i) := Used], Parent(i), n);
    } else {
      SplitUpFrame(p, i, n);
    }
  }

  /** A node that is neither free nor one block: its two halves are accounted for one by one. */
  predicate Divided(p: seq<Mark>, n: nat) {
    n < |p| && p[n] != Free && !Live(p, n)
  }

  /** A request divides exactly the nodes above the block it is answered with. */
  lemma AllocatedDivides(p: seq<Mark>, m: nat, y: nat, n: nat)
    requires Marked(p, m, false) && y < |p| && p[y] == Free && Open(p, y)
    ensures |p| % 2 == 1
    ensures Divided(Allocated(p, y), n) <==> Divided(p, n) || Above(n, y)
  {
    hide Nodes, Depth, Open, MarkUp, Parent, NodeOk, Live, Up, Above;
    AllocatedKeeps(p, m, false, y);
    var q := Allocated(p, y);
    if Above(n, y) {
      AboveIsSmaller(n, y);
      AboveIsOpen(p, n, y);
      NotLive(p, p, n);
      LiveInTree(q, y);
      var k := AboveIsUp(n, y);
      InUseUp(q, m, false, y, k);
    } else if n < |p| && n != y {
      MarkUpFrame(p[y := Used], y, n);
    }
  }

  /** A safe free divides nothing and undivides nothing. */
  lemma FreedDivides(p: seq<Mark>, m: nat, x: nat, page: nat, n: nat)
    requires Marked(p, m, false) && Live(p, x) && Depth(x) <= m && Covers(m, x, page)
    requires x > 0 ==> p[Parent(x)] != Used
    ensures Divided(Freed(p, m, page).0, n) <==> Divided(p, n)
  {
    hide Nodes, Depth, Parent, NodeOk, Live, Freed, Covers;
    FreedKeeps(p, m, x, page);
    LiveInTree(p, x);
  }

  /** An earlier request of the run was answered with a block below n, not n itself. */
  ghost predicate AnsweredBelow(p: seq<Mark>, m: nat, calls: seq<Call>, n: nat)
    decreases calls
  {
    calls != [] && Tree(p, m) && Safe(p, m, calls[0])
    && ((calls[0].Get? && Answer(p, m, calls[0].bytes).Some? && Above(n, Answer(p, m, calls[0].bytes).value))
        || AnsweredBelow(After(p, m, calls[0]), m, calls[1..], n))
  }

  lemma AfterDivides(p: seq<Mark>, m: nat, c: Call, n: nat)
    requires Marked(p, m, false) && Safe(p, m, c)
    ensures Divided(After(p, m, c), n) <==>
              || Divided(p, n)
              || (c.Get? && Answer(p, m, c.bytes).Some? && Above(n, Answer(p, m, c.bytes).value))
  {
    hide Nodes, Depth, Find, Start, NodeOk, Live, Open, Covers, Divided, Above, Allocated, Freed;
    match c
    case Get(bytes) =>
      var r := Answer(p, m, bytes);
      OddTree(p, m);
      if r.Some? { AllocatedDivides(p, m, r.value, n); }
    case Release(block) =>
      OwnPage(m, block);
      FreedDivides(p, m, block, Start(m, block), n);
  }

  /**
   Once divided, always divided: in every run of requests and safe frees a node is divided exactly if it
   was so at the beginning or a request of the run was answered below it.
   */
  lemma {:induction false} DividedIffAnsweredBelow(p: seq<Mark>, m: nat, calls: seq<Call>, q: seq<Mark>, n: nat)
    requires Marked(p, m, false) && Runs(p, m, calls, q)
    ensures Divided(q, n) <==> Divided(p, n) || AnsweredBelow(p, m, calls, n)
    decreases calls
  {
    hide Nodes, After, Answer, Safe, NodeOk, Divided, Above;
    if calls != [] {
      AfterKeeps(p, m, false, calls[0]);
      AfterDivides(p, m, calls[0], n);
      DividedIffAnsweredBelow(After(p, m, calls[0]), m, calls[1..], q, n);
    }
  }

  /**
   After any run of requests and safe frees on an unused memory, a request is given the lowest
   candidate below which no earlier request of the run was answered; it fails exactly if every
   candidate has had such an answer, though all its pages are free. The marks say so too: those are the
   candidates marked SPLIT.
   */
  lemma GetAfterFrees(p: seq<Mark>, m: nat, calls: seq<Call>, q: seq<Mark>, bytes: nat)
    requires Unused(p, m) && Runs(p, m, calls, q) && 0 < bytes <= PAGE_SIZE * Pow2(m)
    ensures Tree(q, m)
    ensures forall n: nat :: Candidate(q, m, bytes, n) ==> n < |q| && (q[n] == Split <==> AnsweredBelow(p, m, calls, n))
    ensures var r := Answer(q, m, bytes);
            && (r.Some? ==> Candidate(q, m, bytes, r.value) && !AnsweredBelow(p, m, calls, r.value))
            && (forall n: nat :: Candidate(q, m, bytes, n) && !AnsweredBelow(p, m, calls, n) ==>
                                   r.Some? && Start(m, r.value) <= Start(m, n))
            && (r == None <==> forall n: nat :: Candidate(q, m, bytes, n) ==> AnsweredBelow(p, m, calls, n))
  {
    hide Nodes, Depth, Start, NodeOk, Candidate, Runs, Pow2, Answer, AnsweredBelow;
    UnusedIsMarked(p, m);
    StrictIsMarked(p, m);
    RunsKeep(p, m, calls, q, false);
    AnswerIsLowestUnsplit(q, m, bytes);
    AnswerIsLowestIff(q, m, bytes);
    forall n: nat | Candidate(q, m, bytes, n)
      ensures n < |q| && (q[n] == Split <==> AnsweredBelow(p, m, calls, n))
    {
      SplitIffAnsweredBelow(p, m, calls, q, bytes, n);
    }
  }

  lemma SplitIffAnsweredBelow(p: seq<Mark>, m: nat, calls: seq<Call>, q: seq<Mark>, bytes: nat, n: nat)
    requires Unused(p, m) && Marked(p, m, false) && Runs(p, m, calls, q) && Marked(q, m, false)
    requires bytes <= PAGE_SIZE * Pow2(m) && Candidate(q, m, bytes, n)
    ensures n < |q| && (q[n] == Split <==> AnsweredBelow(p, m, calls, n))
  {
    hide Nodes, Depth, NodeOk, Runs, Pow2, AnsweredBelow, Unoccupied, Level;
    AvailableIffUnsplit(q, m, n);
    DividedIffAnsweredBelow(p, m, calls, q, n);
    if q[n] == Split { NotLive(q, q, n); }
  }

  lemma StrictIsMarked(p: seq<Mark>, m: nat)
    requires Marked(p, m, true)
    ensures Marked(p, m, false)
  {
    forall i: nat | i < |p|
      ensures NodeOk(p, i, false)
    {
      assert NodeOk(p, i, true);
    }
  }

  /**
   In particular, when everything has been freed again the memory is not what it was: a request fails
   exactly if every block of its size was divided by some earlier answer.
   */
  lemma GetAfterEverythingWasFreed(p: seq<Mark>, m: nat, calls: seq<Call>, q: seq<Mark>, bytes: nat)
    requires Unused(p, m) && Runs(p, m, calls, q) && 0 < bytes <= PAGE_SIZE * Pow2(m) && forall x :: !Live(q, x)
    ensures Tree(q, m)
    ensures Answer(q, m, bytes) == None <==>
              forall n: nat :: n < |q| && Depth(n) == Level(bytes, m) ==> AnsweredBelow(p, m, calls, n)
  {
    hide Nodes, Depth, Start, NodeOk, Runs, Pow2, Answer, AnsweredBelow, Live, Level;
    GetAfterFrees(p, m, calls, q, bytes);
    forall n: nat | n < |q| && Depth(n) == Level(bytes, m)
      ensures Candidate(q, m, bytes, n)
    {
    }
  }

  // ------------------------------------------------- frees of what nobody has

  /** The half of a node that has the page. */
  lemma HalfOf(m: nat, i: nat, page: nat) returns (c: nat)
    requires Depth(i) < m && Covers(m, i, page)
    ensures (c == Left(i) || c == Right(i)) && Parent(c) == i && Depth(c) == Depth(i) + 1 && Covers(m, c, page)
    ensures c == Left(i) <==> page < Start(m, i) + Size(m, Depth(i)) / 2
    ensures Start(m, c) == if c == Left(i) then Start(m, i) else Start(m, i) + Size(m, Depth(i)) / 2
    ensures Size(m, Depth(c)) == Size(m, Depth(i)) / 2
  {
    hide Start, Size, Depth;
    DepthOfChildren(i);
    SizeStep(m, Depth(i));
    StartStep(m, Left(i));
    StartStep(m, Right(i));
    c := if page < Start(m, i) + Size(m, Depth(i)) / 2 then Left(i) else Right(i);
  }

  /** A used node has, for each of its pages, a live block with that page. */
  lemma {:induction false} SomebodyHas(p: seq<Mark>, m: nat, i: nat, page: nat) returns (x: nat)
    requires Marked(p, m, false) && i < |p| && Depth(i) <= m && Covers(m, i, page) && p[i] == Used
    ensures Live(p, x) && Depth(x) <= m && Covers(m, x, page)
    decreases |p| - i
  {
    hide Nodes, Depth, Start, Size, Covers, Parent;
    assert NodeOk(p, i, false);
    if Live(p, i) {
      x := i;
    } else {
      TreeNode(p, m, i);
      var c := HalfOf(m, i, page);
      x := SomebodyHas(p, m, c, page);
    }
  }

  /** The walk of freeMemory passes over nodes that are not used. */
  lemma {:induction false} WalkFindsNothing(p: seq<Mark>, m: nat, i: nat, page: nat)
    requires Marked(p, m, false) && Depth(i) <= m && Covers(m, i, page) && i < |p|
    requires forall x: nat :: Live(p, x) && Depth(x) <= m ==> !Covers(m, x, page)
    ensures FreeWalk(p, i, Start(m, i), Size(m, Depth(i)), page) == (p, false)
    decreases |p| - i
  {
    hide Nodes, Depth, Start, Size, Covers, Parent, Live, NodeOk;
    if p[i] == Used {
      var x := SomebodyHas(p, m, i, page);
    }
    TreeNode(p, m, i);
    WalkGoesDown(p, i, Start(m, i), Size(m, Depth(i)), page);
    if Depth(i) < m {
      var c := HalfOf(m, i, page);
      TreeNode(p, m, c);
      WalkFindsNothing(p, m, c, page);
    }
  }

  lemma WalkGoesDown(p: seq<Mark>, i: nat, branch: nat, span: nat, page: nat)
    requires i < |p| && p[i] != Used
    ensures FreeWalk(p, i, branch, span, page) ==
            if page < branch + span / 2 then FreeWalk(p, Left(i), branch, span / 2, page)
            else FreeWalk(p, Right(i), branch + span / 2, span / 2, page)
    ensures Left(i) >= |p| ==> FreeWalk(p, i, branch, span, page) == (p, false)
  {
    assert FreeAt(p, i) == p;
  }

  /** freeMemory of a page that is in no live block, freed already or never handed out, changes nothing and fails. */
  lemma FreeOfAFreePage(p: seq<Mark>, m: nat, page: nat)
    requires Marked(p, m, false) && page < Pow2(m)
    requires forall x: nat :: Live(p, x) && Depth(x) <= m ==> !Covers(m, x, page)
    ensures Freed(p, m, page) == (p, false)
  {
    hide Nodes, Start, Size, Live, NodeOk, FreeWalk;
    RootStarts(m);
    WholeSize(m);
    TreeNode(p, m, 0);
    WalkFindsNothing(p, m, 0, page);
  }

  /** So does a second free of the same block. */
  lemma SecondFreeChangesNothing(p: seq<Mark>, m: nat, x: nat, page: nat, again: nat)
    requires Marked(p, m, false) && Live(p, x) && Depth(x) <= m && Covers(m, x, page) && Covers(m, x, again)
    requires x > 0 ==> p[Parent(x)] != Used
    ensures var q := Freed(p, m, page).0; Freed(q, m, again) == (q, false)
  {
    hide Nodes, Start, Size, Live, NodeOk, FreeWalk, Freed, Depth, Covers;
    FreedKeeps(p, m, x, page);
    var q := Freed(p, m, page).0;
    forall y: nat | Live(q, y) && Depth(y) <= m
      ensures !Covers(m, y, again)
    {
      if Covers(m, y, again) { LiveDisjoint(p, m, false, x, y, again); }
    }
    BelowTheTop(m, x, again);
    FreeOfAFreePage(q, m, again);
  }

  lemma BelowTheTop(m: nat, x: nat, page: nat)
    requires Depth(x) <= m && Covers(m, x, page)
    ensures page < Pow2(m)
  {
    InRange(m, x);
  }

  // ------------------------------------------------- frees under a used parent

  /** Clearing a path uses nothing. */
  lemma {:induction false} ClearedUsesNothing(p: seq<Mark>, x: nat, k: nat, n: nat)
    requires x < |p| && k <= Depth(x) && n < |p| && p[n] != Used
    ensures Cleared(p, x, k)[n] != Used
    decreases k
  {
    hide Depth, Up;
    if k > 0 { ClearedUsesNothing(FreeAt(p, Up(x, k)), x, k - 1, n); }
  }

  lemma {:induction false} OpenIf(q: seq<Mark>, n: nat)
    requires n < |q| && forall j: nat :: 0 < j <= Depth(n) ==> q[Up(n, j)] != Used
    ensures Open(q, n)
    decreases n
  {
    if n > 0 {
      UpStepOne(n);
      forall j: nat | 0 < j <= Depth(Parent(n))
        ensures q[Up(Parent(n), j)] != Used
      {
        assert Up(n, j + 1) == Up(Parent(n), j);
      }
      OpenIf(q, Parent(n));
    }
  }

  /** After the free everything on the path to the block may be walked through. */
  lemma ClearedIsOpen(p: seq<Mark>, x: nat)
    requires 0 < x < |p|
    ensures Open(Cleared(p, x, Depth(x)), Parent(x))
  {
    hide Up, Cleared;
    var q := Cleared(p, x, Depth(x));
    UpStepOne(x);
    forall j: nat | 0 < j <= Depth(Parent(x))
      ensures q[Up(Parent(x), j)] != Used
    {
      assert Up(Parent(x), j) == Up(x, j + 1) by { UpTwice(x, j); }
      if p[Up(x, j + 1)] == Used {
        ClearedOnPath(p, x, Depth(x), j + 1);
      } else {
        ClearedUsesNothing(p, x, Depth(x), Up(x, j + 1));
      }
    }
    OpenIf(q, Parent(x));
  }

  lemma UpTwice(x: nat, j: nat)
    requires x > 0 && j <= Depth(Parent(x))
    ensures j + 1 <= Depth(x) && Up(x, j + 1) == Up(Parent(x), j)
  {
  }

  /** Nodes at the depth of x or below it, other than x, are not on the path that a free of x clears. */
  lemma ClearedBeside(p: seq<Mark>, x: nat, n: nat)
    requires x < |p| && n < |p| && Depth(n) >= Depth(x) && n != x
    ensures Cleared(p, x, Depth(x))[n] == p[n]
  {
    hide Up, Cleared, Depth;
    forall j: nat | j <= Depth(x)
      ensures n != Up(x, j)
    {
      UpHere(x);
      DepthOfUp(x, j);
    }
    ClearedOffPath(p, x, Depth(x), n);
  }

  lemma {:induction false} DepthOfUp(x: nat, j: nat)
    requires j <= Depth(x)
    ensures Depth(Up(x, j)) == Depth(x) - j
  {
    if j > 0 {
      UpTwice(x, j - 1);
      DepthOfUp(Parent(x), j - 1);
    }
  }

  /** A block below the other half of x is live before and after x was freed. */
  lemma OtherHalfStaysLive(p: seq<Mark>, m: nat, x: nat) returns (y: nat, k: nat)
    requires Marked(p, m, false) && 0 < x < |p| && Live(p, x) && p[Parent(x)] == Used
    ensures |p| % 2 == 1 && Buddy(x) < |p| && k <= Depth(y) && Up(y, k) == Buddy(x)
    ensures y != x && Live(p, y) && Live(Cleared(p, x, Depth(x)), y)
  {
    hide Nodes, Up, Cleared, Depth, Parent, NodeOk, Live, Buddy;
    var q := Cleared(p, x, Depth(x));
    BuddyInTree(p, m, x);
    assert NodeOk(p, Parent(x), false);
    LiveInTree(p, x);
    UsedHalves(p, x);
    y, k := LiveBelowUsed(p, m, false, Buddy(x));
    LiveInTree(p, y);
    BuddyDepth(x);
    DepthOfUp(y, k);
    BuddyIsSibling(x);
    if k == 0 { UpHere(y); }
    ClearedBeside(p, x, y);
    if Left(y) < |p| {
      DepthOfChildren(y);
      ClearedBeside(p, x, Left(y));
    }
    SameLive(p, q, y);
  }

  lemma BuddyDepth(x: nat)
    requires x > 0
    ensures Depth(Buddy(x)) == Depth(x)
  {
    BuddyIsSibling(x);
  }

  lemma SameLive(p: seq<Mark>, q: seq<Mark>, y: nat)
    requires |p| == |q| && y < |p| && q[y] == p[y] && (Left(y) < |p| ==> q[Left(y)] == p[Left(y)])
    ensures Live(q, y) == Live(p, y)
  {
  }

  /**
   The harm, for every tree: after the free of a block whose parent is used, the parent may be handed
   out although a block of its other half is still live.
   */
  lemma FreedParentIsOfferedInUse(p: seq<Mark>, m: nat, x: nat, page: nat) returns (y: nat)
    requires Marked(p, m, false) && Live(p, x) && Depth(x) <= m && Covers(m, x, page)
    requires x > 0 && p[Parent(x)] == Used
    ensures var q := Freed(p, m, page).0;
            && Available(q, Depth(Parent(x)), Parent(x)) && Depth(Parent(x)) <= m
            && y != x && Live(p, y) && Live(q, y) && !Unoccupied(q, m, Parent(x))
  {
    hide Nodes, Start, Size, Up, FreeWalk, Cleared, FreeAt, Covers, Live, Depth, Freed, NodeOk, Parent, Buddy, Open,
      Unoccupied;
    var q, c := Freed(p, m, page).0, Parent(x);
    FreedIsExact(p, m, false, x, page);
    LiveInTree(p, x);
    UpStepOne(x);
    ClearedOnPath(p, x, Depth(x), 1);
    ClearedIsOpen(p, x);
    var k;
    y, k := OtherHalfStaysLive(p, m, x);
    DepthOfUp(x, 1);
    BuddyIsSibling(x);
    BuddyDepth(x);
    LiveInTree(q, y);
    DepthPositive(x);
    DepthPositive(Buddy(x));
    ClimbOneMore(y, k, Buddy(x));
    TreeSize(p, q, m);
    LiveBelowOccupies(q, m, c, y, k + 1);
  }

  /** Nothing that is in use is offered. */
  ghost predicate OffersOnlyUnoccupied(p: seq<Mark>, m: nat) {
    forall n: nat :: n < |p| && Depth(n) <= m && Available(p, Depth(n), n) ==> Unoccupied(p, m, n)
  }

  /**
   freeMemory leaves every block that may be handed out without a page in use exactly if the parent of
   the freed block is not USED.
   */
  lemma FreedOffersOnlyUnoccupiedIff(p: seq<Mark>, m: nat, x: nat, page: nat)
    requires Marked(p, m, false) && Live(p, x) && Depth(x) <= m && Covers(m, x, page)
    ensures OffersOnlyUnoccupied(Freed(p, m, page).0, m) <==> (x > 0 ==> p[Parent(x)] != Used)
  {
    hide Nodes, Covers, Live, Depth, Freed, NodeOk, Available, Unoccupied, Parent;
    LiveInTree(p, x);
    var q := Freed(p, m, page).0;
    if x > 0 && p[Parent(x)] == Used {
      var y := FreedParentIsOfferedInUse(p, m, x, page);
      assert Parent(x) < |q|;
    } else {
      FreedKeeps(p, m, x, page);
      forall n: nat | n < |q| && Depth(n) <= m && Available(q, Depth(n), n)
        ensures Unoccupied(q, m, n)
      {
        AvailableIsUnoccupied(q, m, false, n);
      }
    }
  }

  // ------------------------------------------------- the smallest cases

  // The memory of two pages is spelled out through parameters, m == 1.

  lemma TwoPageLevels(m: nat, bytes: nat)
    requires m == 1 && (bytes == PAGE_SIZE || bytes == 2 * PAGE_SIZE)
    ensures bytes <= PAGE_SIZE * Pow2(m) && Level(bytes, m) == if bytes == PAGE_SIZE then 1 else 0
  {
    PowZero();
    PowStep(0);
    hide Pow2;
    assert PAGE_SIZE * Pow2(0) == PAGE_SIZE && PAGE_SIZE * Pow2(1) == 2 * PAGE_SIZE;
    if bytes == PAGE_SIZE {
      assert Exponent(bytes, 0) == 0;
    } else {
      assert Exponent(bytes, 0) == Exponent(bytes, 1) == 1;
    }
  }

  lemma TwoPageTree(m: nat, p: seq<Mark>, left: nat, right: nat)
    requires m == 1 && |p| == 3 && left == 1 && right == 2
    ensures Tree(p, m)
    ensures IsHalf(m, left, 0) && IsHalf(m, right, 1) && IsWhole(m, m - 1)
  {
    hide Depth, Start, Size, Pow2, Parent, Left, Right;
    TwoPageNodes(m);
    RootStarts(m);
    HalfStarts(m, left);
    HalfStarts(m, right);
  }

  /** The node of one page of the two. */
  ghost predicate IsHalf(m: nat, half: nat, page: nat) {
    half > 0 && Depth(half) == m && Parent(half) == 0 && Size(m, m) == 1 && Start(m, half) == page
  }

  /** The node of both. */
  ghost predicate IsWhole(m: nat, whole: nat) {
    Depth(whole) == 0 && Start(m, whole) == 0 && Size(m, 0) == 2
  }

  lemma HalfStarts(m: nat, half: nat)
    requires m == 1 && (half == 1 || half == 2)
    ensures Depth(half) == m && Parent(half) == 0
    ensures Start(m, half) == half - 1
  {
    hide Depth, Start, Size, Pow2, Parent, Nodes;
    TwoPageNodes(m);
    RootStarts(m);
    DepthOfChildren(0);
    StartStep(m, half);
  }

  lemma TwoPageNodes(m: nat)
    requires m == 1
    ensures Nodes(m) == 3 && Size(m, m) == 1 && Size(m, 0) == 2 && Left(0) == 1 && Right(0) == 2
  {
    hide Size, Pow2;
    PowZero();
    PowStep(0);
    PowStep(m);
    WholeSize(m);
  }

  lemma ThreeNodes(p: seq<Mark>, m: nat, strict: bool)
    requires Tree(p, m) && |p| == 3 && NodeOk(p, 0, strict) && p[1] != Split && p[2] != Split
    ensures Marked(p, m, strict)
  {
    hide Nodes;
    forall i: nat | i < |p|
      ensures NodeOk(p, i, strict)
    {
    }
  }

  /**
   Two requests for one page take both; freeing the first page also frees the pair, and the next request
   for two pages is given the page that is still in use.
   */
  lemma FreeingHalfOfAUsedPair(m: nat, u: seq<Mark>, p: seq<Mark>, q: seq<Mark>, first: nat, second: nat)
    requires m == 1 && u == [Free, Free, Free] && p == [Used, Used, Used] && q == [Free, Free, Used]
    requires first == 1 && second == 2
    ensures Unused(u, m) && Runs(u, m, [Get(PAGE_SIZE), Get(PAGE_SIZE)], p)
    ensures Marked(p, m, true) && Live(p, first) && Live(p, second)
    ensures Freed(p, m, 0) == (q, false)
    ensures Tree(q, m) && Live(q, second) && Answer(q, m, 2 * PAGE_SIZE) == Some(0)
    ensures Depth(0) <= m && Depth(second) <= m && Covers(m, 0, 1) && Covers(m, second, 1)
  {
    hide Nodes, Depth, Start, Size, Pow2, Freed, Cleared, Level, Up, Parent, Answer, Allocated, After;
    TwoPageTree(m, u, first, second);
    TwoPageTree(m, p, first, second);
    TwoPageTree(m, q, first, second);
    BothPagesTaken(m, u, p, first, second);
    AnswerOf(m, q, 2 * PAGE_SIZE, 0);
    ThreeNodes(p, m, true);
    FreedIsExact(p, m, true, first, 0);
    UpStepOne(first);
    ClearedStep(p, first, 1);
    assert FreeAt(p, 0) == [Free, Used, Used];
    ClearedOnlyBlock([Free, Used, Used], first, 0);
    assert [Free, Used, Used][first := Free] == q;
  }

  lemma BothPagesTaken(m: nat, u: seq<Mark>, p: seq<Mark>, first: nat, second: nat)
    requires m == 1 && u == [Free, Free, Free] && p == [Used, Used, Used] && first == 1 && second == 2 && Tree(u, m)
    ensures Runs(u, m, [Get(PAGE_SIZE), Get(PAGE_SIZE)], p)
  {
    hide Nodes, Depth, Pow2, Answer, Allocated, After, Find, Live;
    var h := [Split, Used, Free];
    OneIsHandedOut(u, first);
    OtherIsHandedOut(h, second);
    GetOnePage(m, u, first);
    TreeSize(u, h, m);
    GetOnePage(m, h, second);
    assert [Get(PAGE_SIZE), Get(PAGE_SIZE)][1..] == [Get(PAGE_SIZE)] && [Get(PAGE_SIZE)][1..] == [];
    assert Runs(p, m, [], p);
    assert Runs(h, m, [Get(PAGE_SIZE)], p);
  }

  /** What a request for one page does when the search finds block n. */
  lemma GetOnePage(m: nat, p: seq<Mark>, n: nat)
    requires m == 1 && Tree(p, m) && |p| == 3 && Find(p, 0, 1) == Some(n) && n < |p|
    ensures Answer(p, m, PAGE_SIZE) == Some(n) && After(p, m, Get(PAGE_SIZE)) == Allocated(p, n)
  {
    hide Nodes, Find, Allocated, Answer;
    AnswerOf(m, p, PAGE_SIZE, 1);
  }

  /**
   Free halves are never joined again: a page handed out and freed leaves a memory in which nothing is
   live and two pages cannot be had.
   */
  lemma HalvesAreNeverJoined(m: nat, p: seq<Mark>, first: nat, second: nat)
    requires m == 1 && p == [Free, Free, Free] && first == 1 && second == 2
    ensures var r := [Split, Free, Free];
            && Unused(p, m) && Runs(p, m, [Get(PAGE_SIZE), Release(first)], r)
            && Tree(r, m) && (forall x :: !Live(r, x)) && Answer(r, m, 2 * PAGE_SIZE) == None
  {
    hide Nodes, Depth, Start, Size, Pow2, Freed, Level, Up, Open, Answer, Allocated, Find, Live, Exponent, NodeOk,
      After, Marked, Parent;
    TwoPageTree(m, p, first, second);
    OneIsHandedOut(p, first);
    GetOnePage(m, p, first);
    var q, r := [Split, Used, Free], [Split, Free, Free];
    TwoPageTree(m, q, first, second);
    TwoPageTree(m, r, first, second);
    OneUsedIsMarked(q, m, first);
    ReleaseFirst(q, m, first, r);
    assert [Get(PAGE_SIZE), Release(first)][1..] == [Release(first)] && [Release(first)][1..] == [];
    assert Runs(r, m, [], r);
    assert Runs(q, m, [Release(first)], r);
    AnswerOf(m, r, 2 * PAGE_SIZE, 0);
    SplitRoot(r);
  }

  lemma ReleaseFirst(q: seq<Mark>, m: nat, first: nat, r: seq<Mark>)
    requires q == [Split, Used, Free] && r == [Split, Free, Free] && IsHalf(m, first, 0) && first == 1
    requires Marked(q, m, false) && Live(q, first)
    ensures Safe(q, m, Release(first)) && After(q, m, Release(first)) == r
  {
    hide Nodes, Depth, Start, Size, Pow2, Freed, Live, NodeOk, Marked, Parent;
    MarkedIsTree(q, m);
    OwnPage(m, first);
    FreedKeeps(q, m, first, 0);
    assert q[first := Free] == r;
  }

  lemma MarkedIsTree(q: seq<Mark>, m: nat)
    requires Marked(q, m, false)
    ensures Tree(q, m)
  {
  }

  /** What a request for one page, or for two, is answered with. */
  lemma AnswerOf(m: nat, p: seq<Mark>, bytes: nat, level: nat)
    requires m == 1 && Tree(p, m) && |p| == 3
    requires (bytes == PAGE_SIZE && level == 1) || (bytes == 2 * PAGE_SIZE && level == 0)
    ensures Answer(p, m, bytes) == Find(p, 0, level)
  {
    hide Nodes, Pow2, Level, Exponent, Find;
    TwoPageLevels(m, bytes);
  }

  lemma OneUsedIsMarked(q: seq<Mark>, m: nat, first: nat)
    requires Tree(q, m) && q == [Split, Used, Free] && first == 1
    ensures Marked(q, m, false) && Live(q, first) && q[Parent(first)] != Used
  {
    hide Nodes, Pow2;
    ThreeNodes(q, m, false);
  }

  lemma SplitRoot(r: seq<Mark>)
    requires r == [Split, Free, Free]
    ensures Find(r, 0, 0) == None && forall x :: !Live(r, x)
  {
  }

  lemma OneIsHandedOut(p: seq<Mark>, first: nat)
    requires p == [Free, Free, Free] && first == 1
    ensures Find(p, 0, 1) == Some(first) && |p| % 2 == 1 && Allocated(p, first) == [Split, Used, Free]
  {
    hide Depth;
    assert Left(0) == first && Right(0) == 2 && Parent(first) == 0 && Buddy(first) == 2;
    assert Find(p, first, 0) == Some(first);
    var u := p[first := Used];
    assert u[0 := Split] == [Split, Used, Free];
    assert SplitUp(u, first) == SplitUp(u[0 := Split], 0);
  }

  lemma OtherIsHandedOut(p: seq<Mark>, second: nat)
    requires p == [Split, Used, Free] && second == 2
    ensures Find(p, 0, 1) == Some(second) && |p| % 2 == 1 && Allocated(p, second) == [Used, Used, Used]
  {
    hide Depth;
    assert Left(0) == 1 && Right(0) == second && Parent(second) == 0 && Buddy(second) == 1;
    assert Find(p, 1, 0) == None && Find(p, second, 0) == Some(second);
    var u := p[second := Used];
    assert u[0 := Used] == [Used, Used, Used];
    assert MarkUp(u, second) == MarkUp(u[0 := Used], 0);
  }
}
